/** "Did you mean": the picker, as written in C and as written in JavaScript. */
module Suggestions {
  import opened Options
  import opened Levenshtein
  import opened MergeSort

  // ----- what both should pick -----

  predicate Close(query: string, c: string, max: nat) {
    c != [] && c != query && Dist(query, c) <= max
  }

  function Near(query: string, cands: set<string>, max: nat): set<string> {
    set c | c in cands && Close(query, c, max)
  }

  /** The nearest of them. */
  function Nearest(query: string, cands: set<string>, max: nat): set<string> {
    set c | c in Near(query, cands, max) && forall d :: d in Near(query, cands, max) ==>
                                                          Dist(query, c) <= Dist(query, d)
  }

  /** The nearest candidates when there are one or two, nothing otherwise. */
  function Choice(query: string, cands: set<string>, max: nat): set<string> {
    var best := Nearest(query, cands, max);
    if query == [] || |best| > 2 then {} else best
  }

  // ----- scored candidates -----

  datatype Scored = Scored(name: string, dist: nat)

  function Names(scored: seq<Scored>): set<string> {
    set s | s in scored :: s.name
  }

  /** What the scored list holds after the candidates have been looked at. */
  ghost predicate Collected(scored: seq<Scored>, query: string, cands: set<string>, max: nat) {
    (forall i, j :: 0 <= i < j < |scored| ==> scored[i].name != scored[j].name) &&
    (forall s :: s in scored ==> s.dist == Dist(query, s.name)) &&
    Names(scored) == Near(query, cands, max)
  }

  /** `dist` first, then the names by `byName`. */
  function ByDistance(byName: Compare<string>): Compare<Scored> {
    (a: Scored, b: Scored) => if a.dist != b.dist then a.dist - b.dist else byName(a.name, b.name)
  }

  lemma ByDistanceOrdered(byName: Compare<string>)
    requires TotalPreorder(byName)
    ensures TotalPreorder(ByDistance(byName))
  {
    var cmp := ByDistance(byName);
    forall x, y
      ensures cmp(x, y) <= 0 || cmp(y, x) <= 0
    {
      assert byName(x.name, y.name) <= 0 || byName(y.name, x.name) <= 0;
    }
    forall x, y, z | cmp(x, y) <= 0 && cmp(y, z) <= 0
      ensures cmp(x, z) <= 0
    {
      if x.dist == y.dist == z.dist {
        assert byName(x.name, y.name) <= 0 && byName(y.name, z.name) <= 0;
      }
    }
  }

  lemma SortedCollected(scored: seq<Scored>, byName: Compare<string>, query: string, cands: set<string>, max: nat)
    requires TotalPreorder(byName) && Collected(scored, query, cands, max)
    ensures var r := SortFrom(scored, 1, ByDistance(byName));
            Collected(r, query, cands, max) && |r| == |scored| && Sorted(r, ByDistance(byName)) &&
            forall i, j :: 0 <= i < j < |r| ==> r[i].dist <= r[j].dist
  {
    var cmp := ByDistance(byName);
    ByDistanceOrdered(byName);
    SingleRuns(scored, cmp);
    SortCorrect(scored, 1, cmp);
    var r := SortFrom(scored, 1, cmp);
    forall i, j | 0 <= i < j < |r|
      ensures r[i].dist <= r[j].dist
    {
      assert cmp(r[i], r[j]) <= 0;
    }
    SameElements(scored, r);
    DistinctNames(scored, r);
  }

  /** Names at the same distance are in the order of the names. */
  lemma SortedNames(sorted: seq<Scored>, n: nat, byName: Compare<string>)
    requires Sorted(sorted, ByDistance(byName)) && n <= |sorted|
    requires forall i :: 0 <= i < n ==> sorted[i].dist == sorted[0].dist
    ensures forall i, j :: 0 <= i < j < n ==> byName(sorted[i].name, sorted[j].name) <= 0
  {
    forall i, j | 0 <= i < j < n
      ensures byName(sorted[i].name, sorted[j].name) <= 0
    {
      assert ByDistance(byName)(sorted[i], sorted[j]) <= 0;
    }
  }

  lemma SameElements<T>(a: seq<T>, b: seq<T>)
    requires multiset(a) == multiset(b)
    ensures forall x :: x in a <==> x in b
  {
    assert forall x :: x in a <==> x in multiset(a);
    assert forall x :: x in b <==> x in multiset(b);
  }

  lemma DistinctNames(a: seq<Scored>, b: seq<Scored>)
    requires multiset(a) == multiset(b) && forall i, j :: 0 <= i < j < |a| ==> a[i].name != a[j].name
    ensures forall i, j :: 0 <= i < j < |b| ==> b[i].name != b[j].name
  {
    SameElements(a, b);
    forall i, j | 0 <= i < j < |b|
      ensures b[i].name != b[j].name
    {
      TwiceCounts(b, i, j);
      OnceCounts(a, b[i]);
      assert b[i] in a && b[j] in a;
      SameName(a, b[i], b[j]);
    }
  }

  lemma SameName(a: seq<Scored>, x: Scored, y: Scored)
    requires x in a && y in a && forall i, j :: 0 <= i < j < |a| ==> a[i].name != a[j].name
    ensures x.name == y.name ==> x == y
  {
  }

  lemma TwiceCounts<T>(b: seq<T>, i: nat, j: nat)
    requires i < j < |b|
    ensures b[i] == b[j] ==> multiset(b)[b[i]] >= 2
  {
    assert b == b[..i] + [b[i]] + b[i + 1..j] + [b[j]] + b[j + 1..];
  }

  lemma {:induction false} OnceCounts(a: seq<Scored>, x: Scored)
    requires forall i, j :: 0 <= i < j < |a| ==> a[i].name != a[j].name
    ensures multiset(a)[x] <= 1
  {
    if a != [] {
      OnceCounts(a[1..], x);
      assert a == [a[0]] + a[1..];
      if a[0] == x { assert x !in a[1..]; }
    }
  }

  /** The candidates before the first one that is farther away than the first. */
  function BestCount(scored: seq<Scored>): (k: nat)
    requires scored != []
    ensures 1 <= k <= |scored| && forall i :: 0 <= i < k ==> scored[i].dist == scored[0].dist
    ensures k < |scored| ==> scored[k].dist != scored[0].dist
  {
    BestCountFrom(scored, 1)
  }

  function BestCountFrom(scored: seq<Scored>, k: nat): (r: nat)
    requires 1 <= k <= |scored| && forall i :: 0 <= i < k ==> scored[i].dist == scored[0].dist
    ensures k <= r <= |scored| && forall i :: 0 <= i < r ==> scored[i].dist == scored[0].dist
    ensures r < |scored| ==> scored[r].dist != scored[0].dist
    decreases |scored| - k
  {
    if k == |scored| || scored[k].dist != scored[0].dist then k else BestCountFrom(scored, k + 1)
  }

  /** A name is among the first `BestCount` exactly when it is as near as the first. */
  lemma AmongFirst(scored: seq<Scored>, i: nat)
    requires i < |scored| && forall k, j :: 0 <= k < j < |scored| ==>
                                              scored[k].name != scored[j].name && scored[k].dist <= scored[j].dist
    ensures var k := BestCount(scored);
            scored[0].dist <= scored[i].dist &&
            (scored[i].name in Names(scored[..k]) <==> scored[i].dist == scored[0].dist)
  {
    var k := BestCount(scored);
    var first := scored[..k];
    if i < k {
      assert first[i] == scored[i] && scored[i] in first;
    } else {
      assert scored[k].dist <= scored[i].dist;
      forall f | f in first
        ensures f.name != scored[i].name
      {
        var j :| 0 <= j < k && first[j] == f;
        assert scored[j] == f;
      }
    }
  }

  /** In the sorted list the first `BestCount` names are the nearest ones. */
  lemma FirstAreNearest(scored: seq<Scored>, query: string, cands: set<string>, max: nat)
    requires scored != [] && Collected(scored, query, cands, max)
    requires forall i, j :: 0 <= i < j < |scored| ==> scored[i].dist <= scored[j].dist
    ensures var k := BestCount(scored);
            Names(scored[..k]) == Nearest(query, cands, max) && |Names(scored[..k])| == k
  {
    var k := BestCount(scored);
    var first, near := scored[..k], Near(query, cands, max);
    hide Near;
    hide BestCount;
    forall c | c in near
      ensures scored[0].dist <= Dist(query, c) && (c in Names(first) <==> Dist(query, c) == scored[0].dist)
    {
      var s := NameOf(scored, c);
      var i :| 0 <= i < |scored| && scored[i] == s;
      AmongFirst(scored, i);
    }
    forall c | c in Names(first)
      ensures c in near
    {
      var s := NameOf(first, c);
      assert s in scored && s.name in Names(scored);
    }
    assert scored[0] in scored && scored[0].name in Names(scored);
    CountNames(first);
  }

  lemma NameOf(scored: seq<Scored>, c: string) returns (s: Scored)
    requires c in Names(scored)
    ensures s in scored && s.name == c
  {
    s :| s in scored && s.name == c;
  }

  lemma {:induction false} CountNames(s: seq<Scored>)
    requires forall i, j :: 0 <= i < j < |s| ==> s[i].name != s[j].name
    ensures |Names(s)| == |s|
  {
    if s != [] {
      var rest := s[1..];
      CountNames(rest);
      assert s == [s[0]] + rest;
      assert Names(s) == {s[0].name} + Names(rest);
      NotAgain(s);
      hide Names;
    }
  }

  lemma NotAgain(s: seq<Scored>)
    requires s != [] && forall i, j :: 0 <= i < j < |s| ==> s[i].name != s[j].name
    ensures s[0].name !in Names(s[1..])
  {
    forall t | t in s[1..]
      ensures t.name != s[0].name
    {
      var i :| 0 <= i < |s| - 1 && s[1..][i] == t;
      assert s[i + 1] == t;
    }
  }

  // ----- the picker in C -----

  function StrCmp(a: string, b: string): int {
    CompareStrings(Codes(a), Codes(b))
  }

  function Codes(s: string): seq<int> {
    seq(|s|, i requires 0 <= i < |s| => s[i] as int)
  }

  lemma StrCmpOrdered()
    ensures TotalPreorder(StrCmp)
  {
    StringsAreOrdered();
    forall x, y
      ensures StrCmp(x, y) <= 0 || StrCmp(y, x) <= 0
    {
      assert CompareStrings(Codes(x), Codes(y)) <= 0 || CompareStrings(Codes(y), Codes(x)) <= 0;
    }
    forall x, y, z | StrCmp(x, y) <= 0 && StrCmp(y, z) <= 0
      ensures StrCmp(x, z) <= 0
    {
      assert CompareStrings(Codes(x), Codes(y)) <= 0 && CompareStrings(Codes(y), Codes(z)) <= 0;
    }
  }

  /** The order of the characters, and a prefix first. */
  predicate NotAfter(a: string, b: string) {
    a == "" || (b != "" && (a[0] < b[0] || (a[0] == b[0] && NotAfter(a[1..], b[1..]))))
  }

  lemma {:induction false} CodesAreLex(a: string, b: string)
    ensures LexLe(Codes(a), Codes(b)) <==> NotAfter(a, b)
    decreases |a|
  {
    if a != "" && b != "" {
      assert Codes(a)[1..] == Codes(a[1..]) && Codes(b)[1..] == Codes(b[1..]);
      CodesAreLex(a[1..], b[1..]);
    }
  }

  lemma StrCmpIs(a: string, b: string)
    ensures StrCmp(a, b) <= 0 <==> NotAfter(a, b)
  {
    CompareIsLex(Codes(a), Codes(b));
    CodesAreLex(a, b);
    hide CompareStrings;
    hide LexLe;
    hide NotAfter;
  }

  /** What fits into `char[64]`. */
  function Fit64(s: string): string {
    if |s| < 64 then s else s[..63]
  }

  function Elements(s: seq<string>): (r: set<string>)
    ensures forall x :: x in r <==> x in s
  {
    set x | x in s
  }

  ghost predicate NoRepeats(s: seq<string>) {
    forall i, j :: 0 <= i < j < |s| ==> s[i] != s[j]
  }

  /** The loop over the candidates: distance first, then repeats. */
  method Collect(query: string, candidates: seq<string>) returns (scored: seq<Scored>)
    ensures Collected(scored, query, Elements(candidates), 2)
  {
    scored := [];
    var i := 0;
    while i < |candidates|
      invariant i <= |candidates| && Collected(scored, query, Elements(candidates[..i]), 2)
    {
      var c := candidates[i];
      assert Elements(candidates[..i + 1]) == Elements(candidates[..i]) + {c};
      i := i + 1;
      if c == [] || c == query { continue; }
      var dist := EditDistance(query, c);
      if dist > 2 { continue; }
      var dup, j := false, 0;
      while j < |scored|
        invariant j <= |scored| && !dup && forall k :: 0 <= k < j ==> scored[k].name != c
      {
        if scored[j].name == c {
          dup := true;
          break;
        }
        j := j + 1;
      }
      if dup {
        assert scored[j].name in Names(scored);
        continue;
      }
      CollectOne(scored, c, dist, query, Elements(candidates[..i - 1]), 2);
      scored := scored + [Scored(c, dist)];
    }
    assert candidates[..i] == candidates;
  }

  lemma CollectOne(scored: seq<Scored>, c: string, dist: nat, query: string, cands: set<string>, max: nat)
    requires Collected(scored, query, cands, max) && Close(query, c, max) && dist == Dist(query, c)
    requires forall k :: 0 <= k < |scored| ==> scored[k].name != c
    ensures Collected(scored + [Scored(c, dist)], query, cands + {c}, max)
  {
    var r := scored + [Scored(c, dist)];
    assert Names(r) == Names(scored) + {c} by {
      assert Scored(c, dist) in r;
      forall x | x in Names(r)
        ensures x in Names(scored) + {c}
      {
        var s :| s in r && s.name == x;
      }
    }
  }

  /** `ps_diag_pick_suggestions`; `qsort` is taken to sort. */
  method PickC(query: string, candidates: seq<string>, outCap: int) returns (out: seq<string>)
    ensures Picks(out, query, Elements(candidates), outCap)
  {
    hide Near;
    hide Nearest;
    hide BestCount;
    hide SortFrom;
    hide TotalPreorder;
    hide Choice;
    hide Picks;
    if query == [] || candidates == [] || outCap <= 0 {
      if query == [] || candidates == [] { NothingNear(query, Elements(candidates), 2); }
      PicksNothing(query, Elements(candidates), outCap);
      return [];
    }
    var scored := Collect(query, candidates);
    if scored == [] {
      NoneCollected(query, Elements(candidates), 2);
      PicksNothing(query, Elements(candidates), outCap);
      return [];
    }
    StrCmpOrdered();
    SortedCollected(scored, StrCmp, query, Elements(candidates), 2);
    var sorted := SortFrom(scored, 1, ByDistance(StrCmp));
    var best := BestCount(sorted);
    FirstAreNearest(sorted, query, Elements(candidates), 2);
    ChoiceIs(query, Elements(candidates), 2);
    SortedNames(sorted, best, StrCmp);
    if best > 2 {
      PicksNothing(query, Elements(candidates), outCap);
      return [];
    }
    var n := if best < outCap then best else outCap;
    out := seq(n, i requires 0 <= i < n => Fit64(sorted[i].name));
    NamesPicked(sorted, best, out, query, Elements(candidates), outCap);
  }

  /** The names of a set, in byte order. */
  ghost predicate InOrder(names: seq<string>, all: set<string>) {
    Elements(names) == all && NoRepeats(names) && forall i, j :: 0 <= i < j < |names| ==> NotAfter(names[i], names[j])
  }

  /** What is stored: as many as there is room for, each cut to 63 bytes. */
  function Stored(names: seq<string>, outCap: int): seq<string> {
    var n := if outCap <= 0 then 0 else if |names| < outCap then |names| else outCap;
    seq(n, i requires 0 <= i < n => if |names[i]| <= 63 then names[i] else names[i][..63])
  }

  lemma ChoiceInOrder(query: string, cands: set<string>, max: nat) returns (names: seq<string>)
    ensures InOrder(names, Choice(query, cands, max))
  {
    hide Nearest;
    hide NotAfter;
    var all := Choice(query, cands, max);
    if all == {} {
      names := [];
    } else {
      var x :| x in all;
      var rest := all - {x};
      if rest == {} {
        names := [x];
        assert all == {x};
      } else {
        var y :| y in rest;
        assert all - {x} - {y} == {} by { if z :| z in all - {x} - {y} { ThreeOf(all, x, y, z); } }
        assert all == {x, y};
        EitherWay(x, y);
        names := if NotAfter(x, y) then [x, y] else [y, x];
      }
    }
  }

  lemma {:induction false} EitherWay(a: string, b: string)
    ensures NotAfter(a, b) || NotAfter(b, a)
    decreases |a|
  {
    if a != "" && b != "" { EitherWay(a[1..], b[1..]); }
  }

  lemma ThreeOf<T>(s: set<T>, x: T, y: T, z: T)
    requires {x, y, z} <= s && x != y && x != z && y != z
    ensures |s| > 2
  {
    var t := s - {x, y, z};
    assert s == t + {x, y, z} && |{x, y, z}| == 3;
  }

  /** What the picker returns, for any names and any room. */
  ghost predicate Picks(out: seq<string>, query: string, cands: set<string>, outCap: int) {
    exists names :: InOrder(names, Choice(query, cands, 2)) && out == Stored(names, outCap)
  }

  lemma PicksNothing(query: string, cands: set<string>, outCap: int)
    requires Choice(query, cands, 2) == {} || outCap <= 0
    ensures Picks([], query, cands, outCap)
  {
    hide Choice;
    var names := ChoiceInOrder(query, cands, 2);
    assert outCap > 0 ==> names == [] by { if names != [] { assert names[0] in Elements(names); } }
    assert [] == Stored(names, outCap);
  }

  lemma NamesPicked(sorted: seq<Scored>, best: nat, out: seq<string>, query: string, cands: set<string>, outCap: int)
    requires best <= |sorted| && outCap > 0 && |out| == if best < outCap then best else outCap
    requires forall i :: 0 <= i < |out| ==> out[i] == Fit64(sorted[i].name)
    requires forall i, j :: 0 <= i < j < |sorted| ==> sorted[i].name != sorted[j].name
    requires forall i, j :: 0 <= i < j < best ==> StrCmp(sorted[i].name, sorted[j].name) <= 0
    requires Names(sorted[..best]) == Choice(query, cands, 2)
    ensures Picks(out, query, cands, outCap)
  {
    hide Choice;
    hide StrCmp;
    var names := seq(best, i requires 0 <= i < best => sorted[i].name);
    assert out == Stored(names, outCap);
    SameNames(sorted, best, names);
    hide Stored;
    hide NotAfter;
    forall i, j | 0 <= i < j < |names|
      ensures NotAfter(names[i], names[j])
    {
      StrCmpIs(names[i], names[j]);
    }
    assert NoRepeats(names);
  }

  lemma SameNames(sorted: seq<Scored>, best: nat, names: seq<string>)
    requires best <= |sorted| && |names| == best && forall i :: 0 <= i < best ==> names[i] == sorted[i].name
    ensures Elements(names) == Names(sorted[..best])
  {
    forall i | 0 <= i < best
      ensures names[i] in Names(sorted[..best])
    {
      assert sorted[..best][i] == sorted[i] && sorted[i] in sorted[..best];
    }
    forall x | x in Names(sorted[..best])
      ensures x in names
    {
      var s :| s in sorted[..best] && s.name == x;
      var i :| 0 <= i < best && sorted[..best][i] == s;
      assert names[i] == x;
    }
  }

  lemma ChoiceIs(query: string, cands: set<string>, max: nat)
    ensures Choice(query, cands, max) == if query == [] || |Nearest(query, cands, max)| > 2 then {}
                                         else Nearest(query, cands, max)
  {
  }

  lemma NothingNear(query: string, cands: set<string>, max: nat)
    requires query == [] || cands == {}
    ensures Choice(query, cands, max) == {}
  {
    if query != [] { assert Near(query, cands, max) == {} && Nearest(query, cands, max) == {}; }
  }

  lemma NoneCollected(query: string, cands: set<string>, max: nat)
    requires Collected([], query, cands, max)
    ensures Choice(query, cands, max) == {}
  {
    assert Names([]) == {};
    assert Nearest(query, cands, max) == {};
  }

  /** With names below 64 bytes and room for two, the names that are picked are the choice itself. */
  lemma ShortNamesPicked(out: seq<string>, query: string, cands: set<string>, outCap: int)
    requires Picks(out, query, cands, outCap) && outCap >= 2 && forall c :: c in cands ==> |c| < 64
    ensures InOrder(out, Choice(query, cands, 2))
  {
    hide Nearest;
    ChoiceFits(query, cands);
    hide Choice;
    hide NotAfter;
    var names :| InOrder(names, Choice(query, cands, 2)) && out == Stored(names, outCap);
    ElementCount(names);
    forall i | 0 <= i < |names|
      ensures |names[i]| <= 63
    {
      assert names[i] in Elements(names);
    }
    assert out == names;
  }

  lemma ChoiceFits(query: string, cands: set<string>)
    ensures Choice(query, cands, 2) <= cands && |Choice(query, cands, 2)| <= 2
  {
    assert Nearest(query, cands, 2) <= Near(query, cands, 2) <= cands;
  }

  lemma {:induction false} ElementCount(s: seq<string>)
    requires NoRepeats(s)
    ensures |Elements(s)| == |s|
  {
    if s != [] {
      ElementCount(s[1..]);
      assert Elements(s) == {s[0]} + Elements(s[1..]);
      assert s[0] !in s[1..];
    }
  }

  // ----- the picker in JavaScript -----

  /** `uniqueSorted(...).filter((c) => c !== q)`: which order the names are in does not matter. */
  method Pool(query: string, candidates: seq<string>) returns (pool: seq<string>)
    ensures NoRepeats(pool) && forall c :: c in pool <==> c in candidates && c != [] && c != query
  {
    pool := [];
    var i := 0;
    while i < |candidates|
      invariant i <= |candidates| && NoRepeats(pool)
      invariant forall c :: c in pool <==> c in candidates[..i] && c != [] && c != query
    {
      var c := candidates[i];
      assert candidates[..i + 1] == candidates[..i] + [c];
      if c != [] && c !in pool && c != query { pool := pool + [c]; }
      i := i + 1;
    }
    assert candidates[..i] == candidates;
  }

  /** `pickSuggestions`; `byLocale` stands for `localeCompare`. */
  method PickJs(query: string, candidates: seq<string>, max: nat, byLocale: Compare<string>) returns (best: seq<string>)
    requires TotalPreorder(byLocale)
    ensures Elements(best) == Choice(query, Elements(candidates), max) && NoRepeats(best) && Sorted(best, byLocale)
  {
    hide Nearest;
    hide BestCount;
    hide SortFrom;
    hide TotalPreorder;
    hide Choice;
    ChoiceIs(query, Elements(candidates), max);
    if query == [] {
      NothingNear(query, Elements(candidates), max);
      return [];
    }
    var pool := Pool(query, candidates);
    var scored: seq<Scored>, i := [], 0;
    while i < |pool|
      invariant i <= |pool| && Collected(scored, query, Elements(pool[..i]), max)
    {
      var c := pool[i];
      assert Elements(pool[..i + 1]) == Elements(pool[..i]) + {c} && c in pool;
      var dist := EditDistance(query, c);
      if dist <= max {
        PoolOnce(pool, i, scored, query, max);
        CollectOne(scored, c, dist, query, Elements(pool[..i]), max);
        scored := scored + [Scored(c, dist)];
      }
      i := i + 1;
    }
    assert pool[..i] == pool;
    assert Near(query, Elements(pool), max) == Near(query, Elements(candidates), max);
    if scored == [] {
      NoneCollected(query, Elements(candidates), max);
      return [];
    }
    SortedCollected(scored, byLocale, query, Elements(candidates), max);
    var sorted := SortFrom(scored, 1, ByDistance(byLocale));
    FirstAreNearest(sorted, query, Elements(candidates), max);
    var n := BestCount(sorted);
    best := seq(n, k requires 0 <= k < n => sorted[k].name);
    BestNames(sorted, n, best);
    SortedNames(sorted, n, byLocale);
    if n > 2 { best := []; }
  }

  lemma PoolOnce(pool: seq<string>, i: nat, scored: seq<Scored>, query: string, max: nat)
    requires i < |pool| && NoRepeats(pool) && Collected(scored, query, Elements(pool[..i]), max)
    ensures forall k :: 0 <= k < |scored| ==> scored[k].name != pool[i]
  {
    forall k | 0 <= k < |scored|
      ensures scored[k].name != pool[i]
    {
      assert scored[k] in scored && scored[k].name in Names(scored);
      assert scored[k].name in pool[..i];
    }
  }

  lemma BestNames(sorted: seq<Scored>, n: nat, best: seq<string>)
    requires n <= |sorted| && |best| == n && (forall k :: 0 <= k < n ==> best[k] == sorted[k].name)
    requires forall i, j :: 0 <= i < j < |sorted| ==> sorted[i].name != sorted[j].name
    ensures Elements(best) == Names(sorted[..n]) && NoRepeats(best)
  {
    SameNames(sorted, n, best);
  }
}
