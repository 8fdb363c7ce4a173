/** The bottom-up merge sort behind `list.sort()`, in place with one buffer. */
module MergeSort {
  import opened Basics

  /** Three-way comparison: negative, zero or positive. */
  type Compare<!T> = (T, T) -> int

  ghost predicate TotalPreorder<T(!new)>(cmp: Compare<T>) {
    (forall x, y :: cmp(x, y) <= 0 || cmp(y, x) <= 0) &&
    (forall x, y, z :: cmp(x, y) <= 0 && cmp(y, z) <= 0 ==> cmp(x, z) <= 0)
  }

  ghost predicate Sorted<T>(s: seq<T>, cmp: Compare<T>) {
    forall i, j :: 0 <= i < j < |s| ==> cmp(s[i], s[j]) <= 0
  }

  /** The elements of `s` that compare equal to `v`, in their order. */
  ghost function Class<T>(s: seq<T>, v: T, cmp: Compare<T>): seq<T> {
    if s == [] then []
    else (if cmp(s[0], v) <= 0 && cmp(v, s[0]) <= 0 then [s[0]] else []) + Class(s[1..], v, cmp)
  }

  /** The same elements, and those that compare equal still in the same order. */
  ghost predicate StablePermutation<T(!new)>(a: seq<T>, b: seq<T>, cmp: Compare<T>) {
    multiset(a) == multiset(b) && forall v :: Class(a, v, cmp) == Class(b, v, cmp)
  }

  // ----- the passes as functions -----

  /** On ties the left run goes first. */
  function Merge<T>(x: seq<T>, y: seq<T>, cmp: Compare<T>): (r: seq<T>)
    ensures |r| == |x| + |y|
    decreases |x| + |y|
  {
    if x == [] then y
    else if y == [] then x
    else if cmp(x[0], y[0]) <= 0 then [x[0]] + Merge(x[1..], y, cmp)
    else [y[0]] + Merge(x, y[1..], cmp)
  }

  /** One pass merges neighbouring runs of `w` elements. */
  function Pass<T>(s: seq<T>, w: nat, cmp: Compare<T>): (r: seq<T>)
    requires w > 0
    ensures |r| == |s|
    decreases |s|
  {
    if s == [] then []
    else
      var mid, right := Min(w, |s|), Min(2 * w, |s|);
      Merge(s[..mid], s[mid..right], cmp) + Pass(s[right..], w, cmp)
  }

  function SortFrom<T>(s: seq<T>, w: nat, cmp: Compare<T>): (r: seq<T>)
    requires w > 0
    ensures |r| == |s|
    decreases if w < |s| then |s| - w else 0
  {
    if w >= |s| then s else SortFrom(Pass(s, w, cmp), 2 * w, cmp)
  }

  // ----- merging -----

  lemma {:induction false} MergeElements<T>(x: seq<T>, y: seq<T>, cmp: Compare<T>)
    ensures multiset(Merge(x, y, cmp)) == multiset(x) + multiset(y)
    decreases |x| + |y|
  {
    if x != [] && y != [] {
      if cmp(x[0], y[0]) <= 0 {
        MergeElements(x[1..], y, cmp);
        FirstElement(x);
        FirstElement([x[0]] + Merge(x[1..], y, cmp));
      } else {
        MergeElements(x, y[1..], cmp);
        FirstElement(y);
        FirstElement([y[0]] + Merge(x, y[1..], cmp));
      }
    }
  }

  lemma FirstElement<T>(s: seq<T>)
    requires s != []
    ensures multiset(s) == multiset{s[0]} + multiset(s[1..])
  {
    assert s == [s[0]] + s[1..];
  }

  /** Nothing in `s` comes before `v`. */
  ghost predicate NotBefore<T>(v: T, s: seq<T>, cmp: Compare<T>) {
    forall i :: 0 <= i < |s| ==> cmp(v, s[i]) <= 0
  }

  lemma {:induction false} MergeNotBefore<T>(v: T, x: seq<T>, y: seq<T>, cmp: Compare<T>)
    requires NotBefore(v, x, cmp) && NotBefore(v, y, cmp)
    ensures NotBefore(v, Merge(x, y, cmp), cmp)
    decreases |x| + |y|
  {
    if x != [] && y != [] {
      if cmp(x[0], y[0]) <= 0 { MergeNotBefore(v, x[1..], y, cmp); } else { MergeNotBefore(v, x, y[1..], cmp); }
    }
  }

  lemma FirstNotBefore<T(!new)>(s: seq<T>, v: T, cmp: Compare<T>)
    requires TotalPreorder(cmp) && Sorted(s, cmp) && s != [] && cmp(v, s[0]) <= 0
    ensures NotBefore(v, s, cmp)
  {
  }

  lemma SortedCons<T>(v: T, s: seq<T>, cmp: Compare<T>)
    requires Sorted(s, cmp) && NotBefore(v, s, cmp)
    ensures Sorted([v] + s, cmp)
  {
  }

  lemma SortedTail<T>(s: seq<T>, cmp: Compare<T>)
    requires Sorted(s, cmp) && s != []
    ensures Sorted(s[1..], cmp) && NotBefore(s[0], s[1..], cmp)
  {
  }

  lemma {:induction false} MergeSorted<T(!new)>(x: seq<T>, y: seq<T>, cmp: Compare<T>)
    requires TotalPreorder(cmp) && Sorted(x, cmp) && Sorted(y, cmp)
    ensures Sorted(Merge(x, y, cmp), cmp)
    decreases |x| + |y|
  {
    hide Sorted;
    if x != [] && y != [] {
      SortedTail(x, cmp);
      SortedTail(y, cmp);
      if cmp(x[0], y[0]) <= 0 {
        MergeSorted(x[1..], y, cmp);
        FirstNotBefore(y, x[0], cmp);
        MergeNotBefore(x[0], x[1..], y, cmp);
        SortedCons(x[0], Merge(x[1..], y, cmp), cmp);
      } else {
        MergeSorted(x, y[1..], cmp);
        FirstNotBefore(x, y[0], cmp);
        MergeNotBefore(y[0], x, y[1..], cmp);
        SortedCons(y[0], Merge(x, y[1..], cmp), cmp);
      }
    }
  }

  lemma {:induction false} ClassConcat<T>(a: seq<T>, b: seq<T>, v: T, cmp: Compare<T>)
    ensures Class(a + b, v, cmp) == Class(a, v, cmp) + Class(b, v, cmp)
  {
    if a == [] {
      assert a + b == b;
    } else {
      assert (a + b)[1..] == a[1..] + b;
      ClassConcat(a[1..], b, v, cmp);
    }
  }

  lemma {:induction false} ClassEmpty<T>(s: seq<T>, v: T, cmp: Compare<T>)
    requires forall i :: 0 <= i < |s| ==> !(cmp(s[i], v) <= 0)
    ensures Class(s, v, cmp) == []
  {
    if s != [] { ClassEmpty(s[1..], v, cmp); }
  }

  ghost function Own<T>(x: T, v: T, cmp: Compare<T>): seq<T> {
    if cmp(x, v) <= 0 && cmp(v, x) <= 0 then [x] else []
  }

  lemma ClassFirst<T>(x: T, s: seq<T>, v: T, cmp: Compare<T>)
    ensures Class([x] + s, v, cmp) == Own(x, v, cmp) + Class(s, v, cmp)
  {
    assert ([x] + s)[1..] == s;
  }

  lemma ClassTail<T>(s: seq<T>, v: T, cmp: Compare<T>)
    requires s != []
    ensures Class(s, v, cmp) == Own(s[0], v, cmp) + Class(s[1..], v, cmp)
  {
  }

  lemma MergeStep<T>(x: seq<T>, y: seq<T>, cmp: Compare<T>)
    requires x != [] && y != []
    ensures Merge(x, y, cmp) == if cmp(x[0], y[0]) <= 0 then [x[0]] + Merge(x[1..], y, cmp)
                                else [y[0]] + Merge(x, y[1..], cmp)
  {
  }

  lemma MergeOne<T>(x: seq<T>, y: seq<T>, v: T, cmp: Compare<T>)
    requires x == [] || y == []
    ensures Class(Merge(x, y, cmp), v, cmp) == Class(x, v, cmp) + Class(y, v, cmp)
  {
    assert Class(x, v, cmp) + [] == Class(x, v, cmp) && [] + Class(y, v, cmp) == Class(y, v, cmp);
  }

  /** If `y[0]` goes first and is in the class, it does so only because everything in `x` comes after it. */
  lemma RightGoesFirst<T(!new)>(x: seq<T>, y: seq<T>, v: T, cmp: Compare<T>)
    requires TotalPreorder(cmp) && Sorted(x, cmp) && x != [] && y != [] && !(cmp(x[0], y[0]) <= 0)
    ensures Class(x, v, cmp) == [] || Own(y[0], v, cmp) == []
  {
    hide Class;
    if cmp(y[0], v) <= 0 && cmp(v, y[0]) <= 0 {
      LaterAll(x, y[0], v, cmp);
      ClassEmpty(x, v, cmp);
    }
  }

  /** Merging sorted runs keeps equal elements in order, left run first. */
  lemma {:induction false} MergeStable<T(!new)>(x: seq<T>, y: seq<T>, v: T, cmp: Compare<T>)
    requires TotalPreorder(cmp) && Sorted(x, cmp) && Sorted(y, cmp)
    ensures Class(Merge(x, y, cmp), v, cmp) == Class(x, v, cmp) + Class(y, v, cmp)
    decreases |x| + |y|
  {
    hide *;
    if x == [] || y == [] {
      MergeOne(x, y, v, cmp);
    } else if cmp(x[0], y[0]) <= 0 {
      SortedTail(x, cmp);
      MergeStable(x[1..], y, v, cmp);
      MergeStep(x, y, cmp);
      ClassFirst(x[0], Merge(x[1..], y, cmp), v, cmp);
      ClassTail(x, v, cmp);
      Associate(Own(x[0], v, cmp), Class(x[1..], v, cmp), Class(y, v, cmp));
    } else {
      SortedTail(y, cmp);
      MergeStable(x, y[1..], v, cmp);
      MergeStep(x, y, cmp);
      ClassFirst(y[0], Merge(x, y[1..], cmp), v, cmp);
      ClassTail(y, v, cmp);
      RightGoesFirst(x, y, v, cmp);
      var p, q, r := Class(x, v, cmp), Own(y[0], v, cmp), Class(y[1..], v, cmp);
      assert p == [] || q == [] ==> q + (p + r) == p + (q + r);
    }
  }

  lemma LaterAll<T(!new)>(x: seq<T>, w: T, v: T, cmp: Compare<T>)
    requires TotalPreorder(cmp) && Sorted(x, cmp) && x != [] && cmp(x[0], w) > 0 && cmp(v, w) <= 0
    ensures forall i :: 0 <= i < |x| ==> !(cmp(x[i], v) <= 0)
  {
    forall i | 0 <= i < |x|
      ensures !(cmp(x[i], v) <= 0)
    {
      assert cmp(x[0], x[i]) <= 0;
    }
  }

  // ----- passes -----

  ghost predicate RunsSorted<T>(s: seq<T>, w: nat, cmp: Compare<T>)
    requires w > 0
    decreases |s|
  {
    s == [] || (Sorted(s[..Min(w, |s|)], cmp) && RunsSorted(s[Min(w, |s|)..], w, cmp))
  }

  lemma {:induction false} SingleRuns<T(!new)>(s: seq<T>, cmp: Compare<T>)
    requires TotalPreorder(cmp)
    ensures RunsSorted(s, 1, cmp)
    decreases |s|
  {
    if s != [] { SingleRuns(s[1..], cmp); }
  }

  lemma OneRun<T>(s: seq<T>, w: nat, cmp: Compare<T>)
    requires w > 0 && w >= |s| && RunsSorted(s, w, cmp)
    ensures Sorted(s, cmp)
  {
    if s != [] { assert s[..|s|] == s; }
  }

  /** The first two runs of a non-empty sequence. */
  lemma TwoRuns<T>(s: seq<T>, w: nat, cmp: Compare<T>)
    requires w > 0 && s != [] && RunsSorted(s, w, cmp)
    ensures var mid, right := Min(w, |s|), Min(2 * w, |s|);
            Sorted(s[..mid], cmp) && Sorted(s[mid..right], cmp) && RunsSorted(s[right..], w, cmp)
  {
    var mid, right := Min(w, |s|), Min(2 * w, |s|);
    var rest := s[mid..];
    if rest == [] {
      assert s[mid..right] == [];
    } else {
      assert rest[..Min(w, |rest|)] == s[mid..right] && rest[Min(w, |rest|)..] == s[right..];
    }
  }

  lemma {:induction false} PassSorts<T(!new)>(s: seq<T>, w: nat, cmp: Compare<T>)
    requires w > 0 && TotalPreorder(cmp) && RunsSorted(s, w, cmp)
    ensures RunsSorted(Pass(s, w, cmp), 2 * w, cmp)
    decreases |s|
  {
    if s != [] {
      var mid, right := Min(w, |s|), Min(2 * w, |s|);
      TwoRuns(s, w, cmp);
      MergeSorted(s[..mid], s[mid..right], cmp);
      PassSorts(s[right..], w, cmp);
      var m, rest := Merge(s[..mid], s[mid..right], cmp), Pass(s[right..], w, cmp);
      var r := m + rest;
      assert Pass(s, w, cmp) == r;
      assert |m| == right == Min(2 * w, |r|);
      assert r[..right] == m && r[right..] == rest;
    }
  }

  lemma {:induction false} PassElements<T>(s: seq<T>, w: nat, cmp: Compare<T>)
    requires w > 0
    ensures multiset(Pass(s, w, cmp)) == multiset(s)
    decreases |s|
  {
    hide Merge;
    if s != [] {
      var mid, right := Min(w, |s|), Min(2 * w, |s|);
      MergeElements(s[..mid], s[mid..right], cmp);
      PassElements(s[right..], w, cmp);
      ThreeParts(s, mid, right);
    }
  }

  lemma ThreeParts<T>(s: seq<T>, mid: nat, right: nat)
    requires mid <= right <= |s|
    ensures multiset(s) == multiset(s[..mid]) + multiset(s[mid..right]) + multiset(s[right..])
  {
    assert s[..right] == s[..mid] + s[mid..right];
    assert s == s[..right] + s[right..];
  }

  lemma {:induction false} PassStable<T(!new)>(s: seq<T>, w: nat, v: T, cmp: Compare<T>)
    requires w > 0 && TotalPreorder(cmp) && RunsSorted(s, w, cmp)
    ensures Class(Pass(s, w, cmp), v, cmp) == Class(s, v, cmp)
    decreases |s|
  {
    hide Class;
    hide Merge;
    hide Sorted;
    if s != [] {
      var mid, right := Min(w, |s|), Min(2 * w, |s|);
      var x, y, rest := s[..mid], s[mid..right], s[right..];
      TwoRuns(s, w, cmp);
      MergeStable(x, y, v, cmp);
      PassStable(rest, w, v, cmp);
      ClassConcat(Merge(x, y, cmp), Pass(rest, w, cmp), v, cmp);
      ClassConcat(x, y, v, cmp);
      ClassConcat(x + y, rest, v, cmp);
      assert s == x + y + rest;
    }
  }

  /** The sort yields a sorted and stable permutation, for every total preorder. */
  lemma {:induction false} SortCorrect<T(!new)>(s: seq<T>, w: nat, cmp: Compare<T>)
    requires w > 0 && TotalPreorder(cmp) && RunsSorted(s, w, cmp)
    ensures Sorted(SortFrom(s, w, cmp), cmp) && StablePermutation(s, SortFrom(s, w, cmp), cmp)
    decreases if w < |s| then |s| - w else 0
  {
    hide Class;
    hide Pass;
    hide RunsSorted;
    hide Sorted;
    if w >= |s| {
      OneRun(s, w, cmp);
    } else {
      var p := Pass(s, w, cmp);
      PassSorts(s, w, cmp);
      PassElements(s, w, cmp);
      forall v
        ensures Class(p, v, cmp) == Class(s, v, cmp)
      {
        PassStable(s, w, v, cmp);
      }
      SortCorrect(p, 2 * w, cmp);
    }
  }

  /** A sorted stable permutation is unique, so the result does not depend on how it was computed. */
  lemma {:induction false} StableSortUnique<T(!new)>(a: seq<T>, b: seq<T>, cmp: Compare<T>)
    requires TotalPreorder(cmp) && Sorted(a, cmp) && Sorted(b, cmp) && forall v :: Class(a, v, cmp) == Class(b, v, cmp)
    ensures a == b
    decreases |a|
  {
    if a == [] {
      if b != [] { OwnClass(b, a, cmp); }
    } else if b == [] {
      OwnClass(a, b, cmp);
    } else {
      SameFirst(a, b, cmp);
      SortedTail(a, cmp);
      SortedTail(b, cmp);
      forall v
        ensures Class(a[1..], v, cmp) == Class(b[1..], v, cmp)
      {
        var first := if cmp(a[0], v) <= 0 && cmp(v, a[0]) <= 0 then [a[0]] else [];
        assert Class(a, v, cmp) == Class(b, v, cmp);
        assert (first + Class(a[1..], v, cmp))[|first|..] == Class(a[1..], v, cmp);
        assert (first + Class(b[1..], v, cmp))[|first|..] == Class(b[1..], v, cmp);
      }
      StableSortUnique(a[1..], b[1..], cmp);
    }
  }

  lemma OwnClass<T(!new)>(a: seq<T>, b: seq<T>, cmp: Compare<T>)
    requires TotalPreorder(cmp) && a != [] && Class(a, a[0], cmp) == Class(b, a[0], cmp)
    ensures b != []
  {
    assert Class(a, a[0], cmp)[0] == a[0];
  }

  lemma {:induction false} ClassMember<T>(s: seq<T>, v: T, cmp: Compare<T>)
    requires Class(s, v, cmp) != []
    ensures exists i :: 0 <= i < |s| && s[i] == Class(s, v, cmp)[0] && cmp(s[i], v) <= 0
  {
    if !(cmp(s[0], v) <= 0 && cmp(v, s[0]) <= 0) {
      ClassMember(s[1..], v, cmp);
      var i :| 0 <= i < |s| - 1 && s[1..][i] == Class(s, v, cmp)[0] && cmp(s[1..][i], v) <= 0;
      assert s[i + 1] == s[1..][i];
    }
  }

  lemma SameFirst<T(!new)>(a: seq<T>, b: seq<T>, cmp: Compare<T>)
    requires TotalPreorder(cmp) && Sorted(a, cmp) && Sorted(b, cmp) && a != [] && b != []
    requires forall v :: Class(a, v, cmp) == Class(b, v, cmp)
    ensures a[0] == b[0]
  {
    var x, y := a[0], b[0];
    assert Class(a, x, cmp)[0] == x && Class(b, y, cmp)[0] == y;
    assert Class(b, x, cmp) == Class(a, x, cmp) && Class(a, y, cmp) == Class(b, y, cmp);
    ClassMember(b, x, cmp);
    ClassMember(a, y, cmp);
    assert cmp(y, x) <= 0 && cmp(x, y) <= 0;
    assert Class(b, x, cmp)[0] == y;
  }

  // ----- the emitted loops -----

  /** `list.sort()`: sorts the first `n` elements of the list's memory. */
  method Sort<T(0, !new)>(a: array<T>, n: nat, cmp: Compare<T>)
    requires n <= a.Length
    modifies a
    ensures a[..n] == SortFrom(old(a[..n]), 1, cmp) && a[n..] == old(a[n..])
    ensures TotalPreorder(cmp) ==> Sorted(a[..n], cmp) && StablePermutation(old(a[..n]), a[..n], cmp)
  {
    ghost var before := a[..n];
    if n > 1 {
      var buf := new T[n];
      var width := 1;
      while width < n
        invariant width >= 1 && SortFrom(a[..n], width, cmp) == SortFrom(before, 1, cmp) && a[n..] == old(a[n..])
        decreases if width < n then n - width else 0
      {
        hide *;
        SortStep(a[..n], width, cmp);
        MergePass(a, buf, n, width, cmp);
        CopyBack(a, buf, n);
        width := 2 * width;
      }
      SortDone(a[..n], width, cmp);
    }
    if TotalPreorder(cmp) {
      SingleRuns(before, cmp);
      SortCorrect(before, 1, cmp);
    }
  }

  lemma SortStep<T>(s: seq<T>, w: nat, cmp: Compare<T>)
    requires 0 < w < |s|
    ensures SortFrom(s, w, cmp) == SortFrom(Pass(s, w, cmp), 2 * w, cmp)
  {
    hide Pass;
  }

  lemma SortDone<T>(s: seq<T>, w: nat, cmp: Compare<T>)
    requires w > 0 && w >= |s|
    ensures SortFrom(s, w, cmp) == s
  {
  }

  method CopyBack<T>(a: array<T>, buf: array<T>, n: nat)
    requires a != buf && buf.Length == n <= a.Length
    modifies a
    ensures a[..n] == buf[..] && a[n..] == old(a[n..])
  {
    var i := 0;
    while i < n
      invariant i <= n && a[..i] == buf[..i] && a[n..] == old(a[n..])
    {
      a[i] := buf[i];
      i := i + 1;
    }
    assert buf[..i] == buf[..];
  }

  /** Merges every pair of neighbouring runs of `a[..n]` into `buf`. */
  method MergePass<T>(a: array<T>, buf: array<T>, n: nat, width: nat, cmp: Compare<T>)
    requires width > 0 && a != buf && buf.Length == n <= a.Length
    modifies buf
    ensures buf[..] == Pass(a[..n], width, cmp)
  {
    hide *;
    var left := 0;
    ghost var s, all := a[..n], Pass(a[..n], width, cmp);
    assert s[0..] == s && buf[..0] + all == all;
    while left < n
      invariant 0 <= left && a[..n] == s && |s| == n && |all| == n
      invariant if left < n then all == buf[..left] + Pass(s[left..], width, cmp) else n == 0 || all == buf[..]
      decreases if left < n then n - left else 0
    {
      var mid, right := left + width, left + 2 * width;
      if mid > n { mid := n; }
      if right > n { right := n; }
      PassAdvance(s, buf[..left], left, mid, right, width, all, cmp);
      MergeRuns(a, buf, left, mid, right, cmp);
      assert a[..][..n] == s;
      SliceOfFront(a[..], n, left, mid);
      SliceOfFront(a[..], n, mid, right);
      assert right == n ==> buf[..right] == buf[..];
      left := left + 2 * width;
    }
    if n == 0 { PassEmpty(s, width, cmp); }
  }

  lemma PassAdvance<T>(s: seq<T>, done: seq<T>, left: nat, mid: nat, right: nat, w: nat, all: seq<T>, cmp: Compare<T>)
    requires w > 0 && left < |s| && all == done + Pass(s[left..], w, cmp)
    requires mid == if left + w > |s| then |s| else left + w
    requires right == if left + 2 * w > |s| then |s| else left + 2 * w
    ensures var rest := done + Merge(s[left..mid], s[mid..right], cmp);
            all == rest + Pass(s[right..], w, cmp) && (right == |s| ==> all == rest)
  {
    hide Pass;
    hide Merge;
    SliceTwice(s, left, left, mid);
    SliceTwice(s, left, mid, right);
    SliceTwice(s, left, right, |s|);
    PassStep(s[left..], w, cmp);
    var merged, more := Merge(s[left..mid], s[mid..right], cmp), Pass(s[right..], w, cmp);
    assert done + (merged + more) == (done + merged) + more;
    if right == |s| { PassEmpty(s[right..], w, cmp); }
  }

  lemma SliceOfFront<T>(s: seq<T>, n: nat, from: nat, to: nat)
    requires from <= to <= n <= |s|
    ensures s[..n][from..to] == s[from..to]
  {
  }

  lemma SliceTwice<T>(s: seq<T>, from: nat, a: nat, b: nat)
    requires from <= a <= b <= |s|
    ensures s[from..][a - from..b - from] == s[a..b]
  {
  }

  lemma PassStep<T>(s: seq<T>, w: nat, cmp: Compare<T>)
    requires w > 0 && s != []
    ensures var mid, right := if w < |s| then w else |s|, if 2 * w < |s| then 2 * w else |s|;
            Pass(s, w, cmp) == Merge(s[..mid], s[mid..right], cmp) + Pass(s[right..], w, cmp)
  {
  }

  lemma PassEmpty<T>(s: seq<T>, w: nat, cmp: Compare<T>)
    requires w > 0 && s == []
    ensures Pass(s, w, cmp) == []
  {
  }

  /** One element goes from the front of a run to the output. */
  lemma MergeAdvance<T>(s: seq<T>, done: seq<T>, i: nat, mid: nat, j: nat, right: nat, all: seq<T>, cmp: Compare<T>)
    requires i < mid <= j < right <= |s| && all == done + Merge(s[i..mid], s[j..right], cmp)
    ensures cmp(s[i], s[j]) <= 0 ==> all == (done + [s[i]]) + Merge(s[i + 1..mid], s[j..right], cmp)
    ensures !(cmp(s[i], s[j]) <= 0) ==> all == (done + [s[j]]) + Merge(s[i..mid], s[j + 1..right], cmp)
  {
    assert s[i..mid][1..] == s[i + 1..mid] && s[j..right][1..] == s[j + 1..right];
    assert s[i..mid][0] == s[i] && s[j..right][0] == s[j];
  }

  lemma MergeRest<T>(x: seq<T>, y: seq<T>, cmp: Compare<T>)
    requires x == [] || y == []
    ensures Merge(x, y, cmp) == x + y
  {
    assert [] + y == y && x + [] == x;
  }

  /** Merges `a[left..mid]` and `a[mid..right]` into `buf[left..right]`. */
  method MergeRuns<T>(a: array<T>, buf: array<T>, left: nat, mid: nat, right: nat, cmp: Compare<T>)
    requires left <= mid <= right <= buf.Length <= a.Length && a != buf
    modifies buf
    ensures buf[..right] == old(buf[..left]) + Merge(a[..][left..mid], a[..][mid..right], cmp)
  {
    hide *;
    ghost var s := a[..];
    var i, j := MergeFront(a, buf, left, mid, right, cmp);
    var k := i + (j - mid);
    ghost var done := buf[..k];
    MergeRest(s[i..mid], s[j..right], cmp);
    CopyRun(a, buf, i, mid, k);
    k := k + (mid - i);
    CopyRun(a, buf, j, right, k);
    assert done + (s[i..mid] + s[j..right]) == (done + s[i..mid]) + s[j..right];
  }

  /** Merges until one run is used up. */
  method MergeFront<T>(a: array<T>, buf: array<T>, left: nat, mid: nat, right: nat, cmp: Compare<T>)
    returns (i: nat, j: nat)
    requires left <= mid <= right <= buf.Length <= a.Length && a != buf
    modifies buf
    ensures left <= i <= mid <= j <= right && (i == mid || j == right)
    ensures buf[..i + (j - mid)] + Merge(a[..][i..mid], a[..][j..right], cmp) ==
            old(buf[..left]) + Merge(a[..][left..mid], a[..][mid..right], cmp)
  {
    hide *;
    i, j := left, mid;
    var k := left;
    ghost var s := a[..];
    ghost var done, all := buf[..left], buf[..left] + Merge(s[left..mid], s[mid..right], cmp);
    while i < mid && j < right
      invariant left <= i <= mid <= j <= right && k == i + (j - mid) && a[..] == s && buf[..k] == done
      invariant all == done + Merge(s[i..mid], s[j..right], cmp)
    {
      MergeAdvance(s, done, i, mid, j, right, all, cmp);
      if cmp(a[i], a[j]) <= 0 {
        done := done + [a[i]];
        buf[k] := a[i];
        k, i := k + 1, i + 1;
      } else {
        done := done + [a[j]];
        buf[k] := a[j];
        k, j := k + 1, j + 1;
      }
    }
  }

  /** `while (i < to) buf[k++] = a[i++];` */
  method CopyRun<T>(a: array<T>, buf: array<T>, from: nat, to: nat, at: nat)
    requires from <= to <= a.Length && a != buf && at + (to - from) <= buf.Length
    modifies buf
    ensures buf[..at + (to - from)] == old(buf[..at]) + a[..][from..to]
  {
    var i, k := from, at;
    while i < to
      invariant from <= i <= to && k == at + (i - from)
      invariant buf[..k] == old(buf[..at]) + a[..][from..i]
    {
      buf[k] := a[i];
      k, i := k + 1, i + 1;
    }
  }

  // ----- the emitted comparators are total preorders -----

  /** `memcmp` on the common length, then the shorter string first. */
  function CompareStrings(a: seq<int>, b: seq<int>): int {
    var n := Min(|a|, |b|);
    var r := MemCmp(a[..n], b[..n]);
    if r < 0 then -1 else if r > 0 then 1 else if |a| < |b| then -1 else if |a| > |b| then 1 else 0
  }

  function MemCmp(a: seq<int>, b: seq<int>): int
    requires |a| == |b|
  {
    if a == [] then 0 else if a[0] != b[0] then a[0] - b[0] else MemCmp(a[1..], b[1..])
  }

  /** Lexicographic order, defined on its own. */
  predicate LexLe(a: seq<int>, b: seq<int>) {
    a == [] || (b != [] && (a[0] < b[0] || (a[0] == b[0] && LexLe(a[1..], b[1..]))))
  }

  /** -1, 0 or 1. */
  lemma {:induction false} CompareIsLex(a: seq<int>, b: seq<int>)
    ensures CompareStrings(a, b) == if !LexLe(b, a) then -1 else if !LexLe(a, b) then 1 else 0
    ensures CompareStrings(a, b) <= 0 <==> LexLe(a, b)
  {
    LexTotal(a, b);
    if a != [] && b != [] {
      CompareIsLex(a[1..], b[1..]);
      var n := Min(|a|, |b|);
      assert a[..n][1..] == a[1..][..n - 1] && b[..n][1..] == b[1..][..n - 1];
      assert a[..n][0] == a[0] && b[..n][0] == b[0];
    }
  }

  lemma {:induction false} LexTotal(a: seq<int>, b: seq<int>)
    ensures LexLe(a, b) || LexLe(b, a)
  {
    if a != [] && b != [] { LexTotal(a[1..], b[1..]); }
  }

  lemma {:induction false} LexTransitive(a: seq<int>, b: seq<int>, c: seq<int>)
    requires LexLe(a, b) && LexLe(b, c)
    ensures LexLe(a, c)
  {
    if a != [] && b != [] && c != [] && a[0] == b[0] == c[0] { LexTransitive(a[1..], b[1..], c[1..]); }
  }

  lemma StringsAreOrdered()
    ensures TotalPreorder(CompareStrings)
  {
    forall x, y
      ensures CompareStrings(x, y) <= 0 || CompareStrings(y, x) <= 0
    {
      CompareIsLex(x, y);
      CompareIsLex(y, x);
      LexTotal(x, y);
    }
    forall x, y, z | CompareStrings(x, y) <= 0 && CompareStrings(y, z) <= 0
      ensures CompareStrings(x, z) <= 0
    {
      CompareIsLex(x, y);
      CompareIsLex(y, z);
      CompareIsLex(x, z);
      LexTransitive(x, y, z);
    }
  }

  datatype Float = NaN | Infinite(negative: bool) | Finite(r: real)

  predicate FloatLess(a: Float, b: Float) {
    match (a, b)
    case (NaN, _) => false
    case (_, NaN) => false
    case (Infinite(n), Infinite(m)) => n && !m
    case (Infinite(n), Finite(_)) => n
    case (Finite(_), Infinite(m)) => !m
    case (Finite(x), Finite(y)) => x < y
  }

  /** NaN goes last. */
  function CompareFloats(a: Float, b: Float): int {
    if a.NaN? && b.NaN? then 0
    else if a.NaN? then 1
    else if b.NaN? then -1
    else if FloatLess(a, b) then -1
    else if FloatLess(b, a) then 1
    else 0
  }

  /** The order of floats, defined on its own: from the negative infinity over the finite values to the
      positive infinity, and NaN after everything. */
  predicate FloatLe(a: Float, b: Float) {
    b.NaN? || a == Infinite(true) || (b == Infinite(false) && !a.NaN?) || (a.Finite? && b.Finite? && a.r <= b.r)
  }

  lemma CompareIsFloatLe(a: Float, b: Float)
    ensures CompareFloats(a, b) == if !FloatLe(b, a) then -1 else if !FloatLe(a, b) then 1 else 0
    ensures CompareFloats(a, b) <= 0 <==> FloatLe(a, b)
  {
  }

  lemma FloatsAreOrdered()
    ensures TotalPreorder(CompareFloats)
    ensures forall x: Float, y: Float :: x.NaN? && !y.NaN? ==> CompareFloats(y, x) < 0
  {
  }

  function CompareInts(a: int, b: int): int {
    if a < b then -1 else if a > b then 1 else 0
  }

  lemma IntsAreOrdered()
    ensures TotalPreorder(CompareInts)
    ensures forall a, b :: CompareInts(a, b) == if a < b then -1 else if a == b then 0 else 1
  {
  }

  // ----- what sorting with them leaves -----

  lemma SortedInts(s: seq<int>)
    ensures var r := SortFrom(s, 1, CompareInts);
            multiset(r) == multiset(s) && forall i, j :: 0 <= i < j < |r| ==> r[i] <= r[j]
  {
    IntsAreOrdered();
    SingleRuns(s, CompareInts);
    SortCorrect(s, 1, CompareInts);
    hide SortFrom;
  }

  lemma SortedFloats(s: seq<Float>)
    ensures var r := SortFrom(s, 1, CompareFloats);
            multiset(r) == multiset(s) && forall i, j :: 0 <= i < j < |r| ==> FloatLe(r[i], r[j])
  {
    FloatsAreOrdered();
    SingleRuns(s, CompareFloats);
    SortCorrect(s, 1, CompareFloats);
    hide SortFrom;
    var r := SortFrom(s, 1, CompareFloats);
    forall i, j | 0 <= i < j < |r|
      ensures FloatLe(r[i], r[j])
    {
      CompareIsFloatLe(r[i], r[j]);
    }
  }

  lemma SortedStrings(s: seq<seq<int>>)
    ensures var r := SortFrom(s, 1, CompareStrings);
            multiset(r) == multiset(s) && forall i, j :: 0 <= i < j < |r| ==> LexLe(r[i], r[j])
  {
    StringsAreOrdered();
    SingleRuns(s, CompareStrings);
    SortCorrect(s, 1, CompareStrings);
    hide SortFrom;
    var r := SortFrom(s, 1, CompareStrings);
    forall i, j | 0 <= i < j < |r|
      ensures LexLe(r[i], r[j])
    {
      CompareIsLex(r[i], r[j]);
    }
  }
}
