/** The edit distance of the diagnostics, computed in one row that is updated in place. */
module Levenshtein {
  import opened Options
  import opened Basics

  // ----- edit scripts -----

  datatype Edit = Keep | Replace(c: char) | Insert(c: char) | Delete

  /** Runs a script over all of `a`. */
  function Apply(script: seq<Edit>, a: string): Option<string> {
    if script == [] then (if a == [] then Some([]) else None)
    else
      match script[0]
      case Keep => if a == [] then None else Prepend([a[0]], Apply(script[1..], a[1..]))
      case Replace(c) => if a == [] then None else Prepend([c], Apply(script[1..], a[1..]))
      case Insert(c) => Prepend([c], Apply(script[1..], a))
      case Delete => if a == [] then None else Apply(script[1..], a[1..])
  }

  function Prepend(x: string, r: Option<string>): Option<string> {
    match r case Some(s) => Some(x + s) case None => None
  }

  function Cost(script: seq<Edit>): nat {
    if script == [] then 0 else (if script[0].Keep? then 0 else 1) + Cost(script[1..])
  }

  // ----- the recurrence -----

  function Front(s: string): string
    requires s != []
  {
    s[..|s| - 1]
  }

  function Last(s: string): char
    requires s != []
  {
    s[|s| - 1]
  }

  function Dist(a: string, b: string): nat
    decreases |a| + |b|
  {
    if a == [] then |b|
    else if b == [] then |a|
    else
      Min(Min(Dist(Front(a), b) + 1, Dist(a, Front(b)) + 1),
          Dist(Front(a), Front(b)) + if Last(a) == Last(b) then 0 else 1)
  }

  // ----- the recurrence gives the length of a shortest script -----

  /** What a script does after its first edit. */
  function AfterFirst(op: Edit, a: string): string {
    if op.Insert? || a == [] then a else a[1..]
  }

  function FirstOut(op: Edit, a: string): string {
    match op
    case Keep => if a == [] then [] else [a[0]]
    case Replace(c) => [c]
    case Insert(c) => [c]
    case Delete => []
  }

  lemma ApplyStep(script: seq<Edit>, a: string)
    requires script != []
    ensures Apply(script, a) ==
            if !script[0].Insert? && a == [] then None
            else Prepend(FirstOut(script[0], a), Apply(script[1..], AfterFirst(script[0], a)))
    ensures Cost(script) == (if script[0].Keep? then 0 else 1) + Cost(script[1..])
  {
    var r := Apply(script[1..], AfterFirst(script[0], a));
    if script[0].Delete? && r.Some? { assert [] + r.value == r.value; }
  }

  lemma {:induction false} ApplyThen(script: seq<Edit>, a: string, b: string, op: Edit, x: string, y: string)
    requires Apply(script, a) == Some(b) && Apply([op], x) == Some(y)
    ensures Apply(script + [op], a + x) == Some(b + y) && Cost(script + [op]) == Cost(script) + Cost([op])
    decreases |script|
  {
    if script == [] {
      assert script + [op] == [op] && a + x == x && b + y == y;
    } else {
      var rest, all := script[1..], script + [op];
      assert all[1..] == rest + [op] && all[0] == script[0];
      ApplyStep(script, a);
      ApplyStep(all, a + x);
      hide Apply;
      hide Cost;
      var a1 := AfterFirst(script[0], a);
      var b1 := Apply(rest, a1).value;
      ApplyThen(rest, a1, b1, op, x, y);
      assert AfterFirst(script[0], a + x) == a1 + x by { if a != [] { assert (a + x)[1..] == a[1..] + x; } }
      assert FirstOut(script[0], a + x) == FirstOut(script[0], a);
      assert FirstOut(script[0], a) + (b1 + y) == b + y;
    }
  }

  lemma OneEdit(op: Edit, x: string)
    ensures Apply([op], x) ==
            if op.Insert? then (if x == [] then Some([op.c]) else None)
            else if |x| != 1 then None
            else if op.Delete? then Some([])
            else if op.Keep? then Some(x)
            else Some([op.c])
    ensures Cost([op]) == if op.Keep? then 0 else 1
  {
    assert Cost([]) == 0 && [op][1..] == [];
    ApplyStep([op], x);
    var rest := AfterFirst(op, x);
    assert Apply([], rest) == if rest == [] then Some([]) else None;
    hide Apply;
    hide Cost;
    assert op.Keep? && |x| == 1 ==> x == [x[0]];
    assert FirstOut(op, x) + [] == FirstOut(op, x);
  }

  /** A script with the recurrence's cost. */
  lemma {:induction false} ScriptExists(a: string, b: string) returns (script: seq<Edit>)
    ensures Apply(script, a) == Some(b) && Cost(script) == Dist(a, b)
    decreases |a| + |b|
  {
    if a == [] && b == [] { return []; }
    hide *;
    var op := BestEdit(a, b);
    var a1, b1 := if op.Insert? then a else Front(a), if op.Delete? then b else Front(b);
    var x, y := if op.Insert? then [] else [Last(a)], if op.Delete? then [] else [Last(b)];
    SplitLast(a);
    SplitLast(b);
    script := ScriptExists(a1, b1);
    OneEdit(op, x);
    ApplyThen(script, a1, b1, op, x, y);
    assert a1 + x == a && b1 + y == b;
    script := script + [op];
  }

  lemma SplitLast(s: string)
    ensures s != [] ==> Front(s) + [Last(s)] == s && |Front(s)| == |s| - 1
    ensures s + [] == s
  {
  }

  /** The edit that the recurrence's minimum stands for. */
  lemma BestEdit(a: string, b: string) returns (op: Edit)
    requires a != [] || b != []
    ensures !op.Insert? ==> a != []
    ensures !op.Delete? ==> b != []
    ensures op.Keep? ==> Last(a) == Last(b)
    ensures op.Replace? || op.Insert? ==> op.c == Last(b)
    ensures Dist(a, b) == Dist(if op.Insert? then a else Front(a), if op.Delete? then b else Front(b)) +
                          if op.Keep? then 0 else 1
  {
    if a == [] { return Insert(Last(b)); }
    if b == [] { EmptySide(Front(a), b); return Delete; }
    if Dist(a, b) == Dist(Front(a), b) + 1 { return Delete; }
    if Dist(a, b) == Dist(a, Front(b)) + 1 { return Insert(Last(b)); }
    return if Last(a) == Last(b) then Keep else Replace(Last(b));
  }

  /** The last edit works on the last characters. */
  lemma {:induction false} LastEdit(script: seq<Edit>, op: Edit, a: string, b: string)
    requires Apply(script + [op], a) == Some(b)
    ensures Cost(script + [op]) == Cost(script) + if op.Keep? then 0 else 1
    ensures !op.Insert? ==> a != []
    ensures !op.Delete? ==> b != []
    ensures op.Keep? ==> Last(a) == Last(b)
    ensures Apply(script, if op.Insert? then a else Front(a)) == Some(if op.Delete? then b else Front(b))
    decreases |script|
  {
    if script == [] {
      assert script + [op] == [op];
      OneEdit(op, a);
    } else {
      var rest, all := script[1..], script + [op];
      assert all[1..] == rest + [op] && all[0] == script[0];
      var a1 := if script[0].Insert? then a else a[1..];
      var b1 := Apply(rest + [op], a1).value;
      LastEdit(rest, op, a1, b1);
      if !op.Insert? && !script[0].Insert? { assert Front(a)[1..] == Front(a1) && Front(a)[0] == a[0]; }
      if !op.Delete? && !script[0].Delete? { assert Front(b) == [b[0]] + Front(b1); }
    }
  }

  lemma {:induction false} NoCheaperScript(script: seq<Edit>, a: string, b: string)
    requires Apply(script, a) == Some(b)
    ensures Cost(script) >= Dist(a, b)
    decreases |script|
  {
    if script != [] {
      var front, op := script[..|script| - 1], script[|script| - 1];
      assert script == front + [op];
      LastEdit(front, op, a, b);
      var a1, b1 := if op.Insert? then a else Front(a), if op.Delete? then b else Front(b);
      NoCheaperScript(front, a1, b1);
      if a == [] || b == [] { EmptySide(a1, b1); }
    }
  }

  lemma EmptySide(a: string, b: string)
    requires a == [] || b == []
    ensures Dist(a, b) == |a| + |b|
  {
  }

  // ----- one row, updated in place -----

  /** Row `i` of the table: the distances from `a[..i]` to every prefix of `b`. */
  ghost function Row(a: string, b: string, i: nat): (r: seq<nat>)
    requires i <= |a|
    ensures |r| == |b| + 1
    ensures forall j :: 0 <= j <= |b| ==> r[j] == Dist(a[..i], b[..j])
  {
    seq(|b| + 1, j requires 0 <= j <= |b| => Dist(a[..i], b[..j]))
  }

  lemma RowIs(a: string, b: string, i: nat, j: nat)
    requires 1 <= i <= |a| && 1 <= j <= |b|
    ensures Row(a, b, i)[0] == i
    ensures var above, row := Row(a, b, i - 1), Row(a, b, i);
            row[j] == Min(Min(above[j] + 1, row[j - 1] + 1), above[j - 1] + if a[i - 1] == b[j - 1] then 0 else 1)
  {
    assert Front(a[..i]) == a[..i - 1] && Front(b[..j]) == b[..j - 1];
    assert b[..0] == [];
  }

  lemma FirstRow(a: string, b: string)
    ensures forall j :: 0 <= j <= |b| ==> Row(a, b, 0)[j] == j
  {
  }

  /** `levenshtein`, the same in C and in JavaScript. */
  method EditDistance(a: string, b: string) returns (d: nat)
    ensures d == Dist(a, b)
  {
    var n, m := |a|, |b|;
    if n == 0 { return m; }
    if m == 0 { return n; }
    FirstRow(a, b);
    ghost var last := Row(a, b, n)[m];
    assert last == Dist(a, b) by { assert a[..n] == a && b[..m] == b; }
    hide Row;
    hide Dist;
    var dp := new nat[m + 1];
    var j := 0;
    while j <= m
      invariant j <= m + 1 && forall k :: 0 <= k < j ==> dp[k] == k
    {
      dp[j] := j;
      j := j + 1;
    }
    var i := 1;
    assert dp[..] == Row(a, b, 0);
    while i <= n
      invariant 1 <= i <= n + 1 && dp[..] == Row(a, b, i - 1)
    {
      NextRow(dp, a, b, i);
      i := i + 1;
    }
    d := dp[m];
  }

  method NextRow(dp: array<nat>, a: string, b: string, i: nat)
    requires 1 <= i <= |a| && b != [] && dp.Length == |b| + 1 && dp[..] == Row(a, b, i - 1)
    modifies dp
    ensures dp[..] == Row(a, b, i)
  {
    hide Row;
    hide Dist;
    var m := |b|;
    ghost var above, row := Row(a, b, i - 1), Row(a, b, i);
    RowIs(a, b, i, 1);
    var prev := dp[0];
    dp[0] := i;
    var j := 1;
    while j <= m
      invariant 1 <= j <= m + 1 && prev == above[j - 1]
      invariant (forall k :: 0 <= k < j ==> dp[k] == row[k]) && forall k :: j <= k <= m ==> dp[k] == above[k]
    {
      var tmp := dp[j];
      var cost := if a[i - 1] == b[j - 1] then 0 else 1;
      var del, ins, sub := dp[j] + 1, dp[j - 1] + 1, prev + cost;
      var best := if del < ins then del else ins;
      if sub < best { best := sub; }
      RowIs(a, b, i, j);
      dp[j] := best;
      prev := tmp;
      j := j + 1;
    }
    assert dp[..] == row;
  }
}
