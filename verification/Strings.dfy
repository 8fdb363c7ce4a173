/** Search, split, join and replace on UTF-8 strings.  The runtime walks from glyph to glyph over the
    bytes and compares bytes; on valid strings that is what the definitions below say. */
module Strings {
  import opened Options
  import opened Utf8
  import opened Boundaries

  datatype Panic = InvalidUtf8 | InvalidArgument
  datatype Result<T> = Ok(value: T) | Raised(panic: Panic)

  // ----- definitions on sequences -----

  predicate OccursAt<T(==)>(s: seq<T>, p: seq<T>, k: int) {
    0 <= k <= |s| && p <= s[k..]
  }

  lemma OccursLater<T>(s: seq<T>, p: seq<T>)
    requires s != []
    ensures forall k :: 1 <= k <= |s| ==> (OccursAt(s, p, k) <==> OccursAt(s[1..], p, k - 1))
    ensures forall k :: 0 <= k < |s| ==> (OccursAt(s[1..], p, k) <==> OccursAt(s, p, k + 1))
    ensures OccursAt(s, p, 0) <==> p <= s
  {
    forall k | 1 <= k <= |s|
      ensures OccursAt(s, p, k) <==> OccursAt(s[1..], p, k - 1)
    {
      assert s[k..] == s[1..][k - 1..];
    }
    assert s[0..] == s;
  }

  /** The first place where `p` occurs in `s`. */
  function FirstAt<T(==)>(s: seq<T>, p: seq<T>): (r: Option<nat>)
    ensures r.Some? ==> OccursAt(s, p, r.value) && r.value + |p| <= |s| &&
                        forall k :: 0 <= k < r.value ==> !OccursAt(s, p, k)
    ensures r.None? ==> forall k :: 0 <= k <= |s| ==> !OccursAt(s, p, k)
    decreases |s|
  {
    if p <= s then Some(0)
    else if s == [] then None
    else
      var r := FirstAt(s[1..], p);
      OccursLater(s, p);
      if r.Some? then Some(r.value + 1) else None
  }

  /** The last place where `p` occurs in `s[..k]` or starts there. */
  ghost predicate IsLastAt<T>(s: seq<T>, p: seq<T>, r: int) {
    if r == -1 then forall k :: 0 <= k <= |s| ==> !OccursAt(s, p, k)
    else OccursAt(s, p, r) && forall k :: r < k <= |s| ==> !OccursAt(s, p, k)
  }

  /** Cuts `s` at the occurrences of `sep`, from the left. */
  function Split<T(==)>(s: seq<T>, sep: seq<T>): (r: seq<seq<T>>)
    requires sep != []
    ensures |r| > 0
    decreases |s|
  {
    match FirstAt(s, sep)
    case None => [s]
    case Some(k) => [s[..k]] + Split(s[k + |sep|..], sep)
  }

  function Join<T>(parts: seq<seq<T>>, sep: seq<T>): seq<T>
    decreases |parts|
  {
    if parts == [] then []
    else if |parts| == 1 then parts[0]
    else parts[0] + sep + Join(parts[1..], sep)
  }

  /** `s` with every occurrence that `Split` cuts at replaced. */
  function Rewrite<T(==)>(s: seq<T>, pat: seq<T>, sub: seq<T>): seq<T>
    requires pat != []
    decreases |s|
  {
    match FirstAt(s, pat)
    case None => s
    case Some(k) => s[..k] + sub + Rewrite(s[k + |pat|..], pat, sub)
  }

  lemma OccursIs<T>(s: seq<T>, p: seq<T>, k: nat)
    requires k <= |s|
    ensures OccursAt(s, p, k) <==> k + |p| <= |s| && s[k..k + |p|] == p
  {
    assert k + |p| <= |s| ==> s[k..][..|p|] == s[k..k + |p|];
  }

  lemma CutAt<T>(s: seq<T>, p: seq<T>, k: nat)
    requires OccursAt(s, p, k)
    ensures k + |p| <= |s| && s == s[..k] + p + s[k + |p|..]
  {
    OccursIs(s, p, k);
  }

  // ----- laws -----

  lemma {:induction false} JoinSplit<T>(s: seq<T>, sep: seq<T>)
    requires sep != []
    ensures Join(Split(s, sep), sep) == s
    decreases |s|
  {
    hide FirstAt;
    match FirstAt(s, sep)
    case None =>
    case Some(k) =>
      var rest := s[k + |sep|..];
      JoinSplit(rest, sep);
      assert Split(s, sep)[1..] == Split(rest, sep);
      CutAt(s, sep, k);
      hide Split;
  }

  lemma {:induction false} RewriteIsJoinSplit<T>(s: seq<T>, pat: seq<T>, sub: seq<T>)
    requires pat != []
    ensures Rewrite(s, pat, sub) == Join(Split(s, pat), sub)
    decreases |s|
  {
    hide FirstAt;
    match FirstAt(s, pat)
    case None =>
    case Some(k) =>
      var rest := s[k + |pat|..];
      RewriteIsJoinSplit(rest, pat, sub);
      RewriteUnfold(s, pat, sub);
      SplitFound(s, pat, k);
      hide Rewrite;
      hide Split;
      JoinCons(s[..k], Split(rest, pat), sub);
      hide Join;
  }

  lemma JoinCons<T>(first: seq<T>, parts: seq<seq<T>>, sep: seq<T>)
    requires parts != []
    ensures Join([first] + parts, sep) == first + sep + Join(parts, sep)
  {
    assert ([first] + parts)[1..] == parts;
  }

  /** No part contains the separator. */
  lemma {:induction false} PartsLackSep<T>(s: seq<T>, sep: seq<T>, i: nat)
    requires sep != [] && i < |Split(s, sep)|
    ensures FirstAt(Split(s, sep)[i], sep).None?
    decreases |s|
  {
    hide FirstAt;
    match FirstAt(s, sep)
    case None =>
    case Some(k) =>
      SplitFound(s, sep, k);
      FrontLacks(s, sep, k);
      hide Split;
      if i > 0 { PartsLackSep(s[k + |sep|..], sep, i - 1); }
  }

  lemma FrontLacks<T>(s: seq<T>, sep: seq<T>, k: nat)
    requires sep != [] && FirstAt(s, sep) == Some(k)
    ensures k + |sep| <= |s| && FirstAt(s[..k], sep).None?
  {
    forall j | 0 <= j <= k
      ensures !OccursAt(s[..k], sep, j)
    {
      OccursInFront(s, sep, k, j);
    }
    FirstNone(s[..k], sep);
  }

  lemma OccursInFront<T>(s: seq<T>, p: seq<T>, k: nat, j: nat)
    requires j <= k <= |s| && p != []
    ensures OccursAt(s[..k], p, j) ==> OccursAt(s, p, j) && j < k
  {
    if OccursAt(s[..k], p, j) {
      assert s[..k][j..] == s[j..][..k - j];
    }
  }

  /** With an empty separator a string is cut into its glyphs. */
  function Glyphs(s: Bytes): (r: seq<Bytes>)
    requires Valid(s)
    decreases |s|
  {
    if s == [] then [] else [s[..Next(s).value.adv]] + Glyphs(s[Next(s).value.adv..])
  }

  lemma {:induction false} JoinGlyphs(s: Bytes)
    requires Valid(s)
    ensures Join(Glyphs(s), []) == s
    decreases |s|
  {
    if s != [] {
      GlyphsUnfold(s);
      var n := Next(s).value.adv;
      var rest := s[n..];
      JoinGlyphs(rest);
      NoGlyphs(rest);
      hide Next;
      hide Valid;
      hide Glyphs;
      assert s == s[..n] + rest;
      if rest == [] {
        assert [s[..n]] + [] == [s[..n]];
      } else {
        JoinCons(s[..n], Glyphs(rest), []);
        hide Join;
        assert s[..n] + [] == s[..n];
      }
    }
  }

  lemma NoGlyphs(t: Bytes)
    requires Valid(t)
    ensures Glyphs(t) == [] <==> t == []
  {
    if t != [] { GlyphsUnfold(t); }
  }

  // ----- bytes and glyphs agree -----

  predicate StartsWith(s: Bytes, prefix: Bytes) {
    if |prefix| > |s| then false else s[..|prefix|] == prefix
  }

  predicate EndsWith(s: Bytes, suffix: Bytes) {
    if |suffix| > |s| then false else s[|s| - |suffix|..] == suffix
  }

  lemma StartsWithGlyphs(gs: seq<nat>, ns: seq<nat>)
    requires Scalars(gs) && Scalars(ns)
    ensures StartsWith(EncodeAll(gs), EncodeAll(ns)) <==> ns <= gs
  {
    PrefixIff(gs, ns);
  }

  lemma SuffixEncodes(gs: seq<nat>, ns: seq<nat>)
    requires Scalars(gs) && Scalars(ns) && |ns| <= |gs| && gs[|gs| - |ns|..] == ns
    ensures EndsWith(EncodeAll(gs), EncodeAll(ns))
  {
    var front := SplitTail(gs, ns);
    hide *;
    EncodeAllConcat(front, ns);
    EndsIs(EncodeAll(front), EncodeAll(ns));
  }

  lemma SplitTail(gs: seq<nat>, ns: seq<nat>) returns (front: seq<nat>)
    requires Scalars(gs) && |ns| <= |gs| && gs[|gs| - |ns|..] == ns
    ensures Scalars(front) && gs == front + ns
  {
    front := gs[..|gs| - |ns|];
  }

  lemma EndsIs(a: Bytes, b: Bytes)
    ensures EndsWith(a + b, b)
  {
    assert (a + b)[|a|..] == b;
  }

  lemma EndsCut(s: Bytes, b: Bytes) returns (a: Bytes)
    requires EndsWith(s, b)
    ensures s == a + b + [] && b + [] == b
  {
    a := s[..|s| - |b|];
  }

  lemma SuffixDecodes(gs: seq<nat>, ns: seq<nat>)
    requires Scalars(gs) && Scalars(ns) && ns != [] && EndsWith(EncodeAll(gs), EncodeAll(ns))
    ensures |ns| <= |gs| && gs[|gs| - |ns|..] == ns
  {
    var s, n := EncodeAll(gs), EncodeAll(ns);
    ScalarsAll(gs);
    hide EncodeAll;
    hide Decode;
    hide Scalars;
    var x := EndsCut(s, n);
    hide EndsWith;
    Boundary(gs, ns, x, []);
    var k :| 0 <= k <= |gs| && EncodeAll(gs[..k]) == x && EncodeAll(gs[k..]) == n + [];
    DecodeAllEncode(gs[k..]);
    DecodeAllEncode(ns);
    TailIs(gs, k, ns);
  }

  lemma TailIs(gs: seq<nat>, k: nat, ns: seq<nat>)
    requires k <= |gs| && gs[k..] == ns
    ensures |ns| <= |gs| && gs[|gs| - |ns|..] == ns
  {
  }

  lemma EndsWithGlyphs(gs: seq<nat>, ns: seq<nat>)
    requires Scalars(gs) && Scalars(ns)
    ensures EndsWith(EncodeAll(gs), EncodeAll(ns)) <==> |ns| <= |gs| && gs[|gs| - |ns|..] == ns
  {
    hide Scalars;
    if |ns| <= |gs| && gs[|gs| - |ns|..] == ns { SuffixEncodes(gs, ns); }
    if EndsWith(EncodeAll(gs), EncodeAll(ns)) && ns != [] { SuffixDecodes(gs, ns); }
  }

  lemma ScalarsAll(gs: seq<nat>)
    requires Scalars(gs)
    ensures forall k :: 0 <= k <= |gs| ==> Scalars(gs[..k]) && Scalars(gs[k..])
  {
  }

  /** Where the walk stands: `g` glyphs lie before byte `i`. */
  ghost predicate Stands(s: Bytes, i: nat, gs: seq<nat>, g: nat) {
    i <= |s| && g <= |gs| && Scalars(gs) && EncodeAll(gs) == s && EncodeAll(gs[g..]) == s[i..]
  }

  lemma StandsNext(s: Bytes, i: nat, gs: seq<nat>, g: nat)
    requires Stands(s, i, gs, g) && i < |s|
    ensures Next(s[i..]).Some? && i + Next(s[i..]).value.adv <= |s| && Stands(s, i + Next(s[i..]).value.adv, gs, g + 1)
  {
    hide Encode;
    hide Next;
    assert gs[g..] != [];
    EncodeIffScalar(gs[g]);
    var e, rest := Encode(gs[g]).value, EncodeAll(gs[g + 1..]);
    assert gs[g..][1..] == gs[g + 1..];
    assert s[i..] == e + rest;
    DecodeEncode(gs[g], rest);
    assert s[i + |e|..] == s[i..][|e|..] == rest;
  }

  lemma StandsMatch(s: Bytes, i: nat, gs: seq<nat>, g: nat, ns: seq<nat>)
    requires Stands(s, i, gs, g) && Scalars(ns)
    ensures OccursAt(s, EncodeAll(ns), i) <==> OccursAt(gs, ns, g)
  {
    PrefixIff(gs[g..], ns);
  }

  lemma StandsStart(s: Bytes, needle: Bytes) returns (gs: seq<nat>, ns: seq<nat>)
    requires Valid(s) && Valid(needle)
    ensures gs == Decode(s).value && Stands(s, 0, gs, 0)
    ensures ns == Decode(needle).value && Scalars(ns) && EncodeAll(ns) == needle
  {
    gs, ns := Decode(s).value, Decode(needle).value;
    EncodeAllDecode(s);
    EncodeAllDecode(needle);
    assert gs[0..] == gs && s[0..] == s;
  }

  lemma MatchesOccurs(s: Bytes, p: Bytes, i: nat)
    requires i <= |s|
    ensures Matches(s, p, i) <==> OccursAt(s, p, i)
    ensures Matches(s, p, i) ==> i + |p| <= |s|
  {
    OccursIs(s, p, i);
  }

  /** On valid strings, byte `i` is where glyph `g` starts, and `last` is the last occurrence before. */
  ghost predicate Looking(s: Bytes, p: Bytes, i: nat, g: nat, last: int) {
    Valid(s) && Valid(p) ==>
      var gs, ns := Decode(s).value, Decode(p).value;
      Stands(s, i, gs, g) && Scalars(ns) && EncodeAll(ns) == p &&
      -1 <= last < g && (last >= 0 ==> OccursAt(gs, ns, last)) && forall k :: last < k < g ==> !OccursAt(gs, ns, k)
  }

  lemma LookStart(s: Bytes, p: Bytes)
    ensures Looking(s, p, 0, 0, -1)
  {
    if Valid(s) && Valid(p) { var gs, ns := StandsStart(s, p); }
  }

  lemma LookHere(s: Bytes, p: Bytes, i: nat, g: nat, last: int)
    requires Looking(s, p, i, g, last) && Valid(s) && Valid(p) && i <= |s|
    ensures Matches(s, p, i) <==> OccursAt(Decode(s).value, Decode(p).value, g)
  {
    hide Decode;
    hide Stands;
    hide OccursAt;
    hide Matches;
    StandsMatch(s, i, Decode(s).value, g, Decode(p).value);
    MatchesOccurs(s, p, i);
  }

  lemma LookOn(s: Bytes, p: Bytes, i: nat, g: nat, last: int)
    requires Looking(s, p, i, g, last) && Valid(s) && Valid(p) && i < |s|
    ensures NextAt(s, i).Some? && Looking(s, p, i + NextAt(s, i).value.adv, g + 1, if Matches(s, p, i) then g else last)
  {
    hide Decode;
    hide Stands;
    hide OccursAt;
    hide Matches;
    LookHere(s, p, i, g, last);
    StandsNext(s, i, Decode(s).value, g);
  }

  lemma LookFirst(s: Bytes, p: Bytes, i: nat, g: nat)
    requires Looking(s, p, i, g, -1) && Valid(s) && Valid(p) && i <= |s| && Matches(s, p, i)
    ensures FirstAt(Decode(s).value, Decode(p).value) == Some(g)
  {
    hide Decode;
    hide OccursAt;
    hide Matches;
    LookHere(s, p, i, g, -1);
    FirstIs(Decode(s).value, Decode(p).value, g);
  }

  lemma LookEnd(s: Bytes, p: Bytes, g: nat, last: int)
    requires Looking(s, p, |s|, g, last) && Valid(s) && Valid(p)
    ensures var gs, ns := Decode(s).value, Decode(p).value;
            var r := if Matches(s, p, |s|) then g else last;
            IsLastAt(gs, ns, r) && (r == -1 ==> FirstAt(gs, ns).None?)
  {
    LookHere(s, p, |s|, g, last);
    var gs, ns := Decode(s).value, Decode(p).value;
    EndStands(s, gs, g);
    hide Decode;
    hide OccursAt;
    hide Matches;
    hide Stands;
  }

  lemma EndStands(s: Bytes, gs: seq<nat>, g: nat)
    requires Stands(s, |s|, gs, g)
    ensures g == |gs|
  {
    if g < |gs| { SomeBytes(gs[g..]); }
  }

  lemma SomeBytes(gs: seq<nat>)
    requires Scalars(gs) && gs != []
    ensures EncodeAll(gs) != []
  {
    EncodeIffScalar(gs[0]);
  }

  lemma EmptyNeedle(s: Bytes, p: Bytes)
    requires p == []
    ensures Valid(p) && Decode(p) == Some([])
    ensures Valid(s) ==> FirstAt(Decode(s).value, []) == Some(0) && IsLastAt(Decode(s).value, [], |Decode(s).value|)
  {
  }

  /** `ps_string_index_of`: the number of glyphs before the first occurrence. */
  method IndexOf(s: Bytes, needle: Bytes) returns (r: Result<int>)
    ensures Valid(s) && Valid(needle) ==>
              r == Ok(match FirstAt(Decode(s).value, Decode(needle).value) case Some(k) => k case None => -1)
    ensures forall i: nat :: FirstMatch(s, needle, 0, i) ==> r == Ok(GlyphsBefore(s, i))
    ensures NoMatch(s, needle, 0) ==> r == if Valid(s) then Ok(-1) else Raised(InvalidUtf8)
  {
    hide *;
    StartsAt(s, 0);
    NoneBefore(s, needle, 0);
    if needle == [] {
      EmptyNeedle(s, needle);
      ValidMeans(s);
      EmptyMatches(s, needle, 0, 0);
      FoundHere(s, needle, 0, 0);
      return Ok(0);
    }
    ghost var ok := Valid(s) && Valid(needle);
    LookStart(s, needle);
    ValidMeans(s);
    ValidMeans(needle);
    var i: nat, g: nat := 0, 0;
    while i <= |s|
      invariant i <= |s| && Looking(s, needle, i, g, -1)
      invariant Edge(s, 0, i) && GlyphsBefore(s, i) == g && Passed(s, needle, 0, i)
      decreases |s| - i
    {
      if Matches(s, needle, i) {
        if ok { LookFirst(s, needle, i, g); }
        FoundHere(s, needle, 0, i);
        return Ok(g);
      }
      if i == |s| { break; }
      EdgeStep(s, 0, i);
      PassedOn(s, needle, 0, i);
      if ok { LookOn(s, needle, i, g, -1); }
      var step := NextAt(s, i);
      if step.None? { return Raised(InvalidUtf8); }
      i, g := i + step.value.adv, g + 1;
      if !ok { LookNowhere(s, needle, i, g, -1); }
    }
    if ok { LookEnd(s, needle, g, -1); }
    NowhereTo(s, needle, 0);
    r := Ok(-1);
  }

  lemma NoneBefore(s: Bytes, p: Bytes, from: nat)
    requires Edge(s, from, from)
    ensures Passed(s, p, from, from)
  {
  }

  lemma EmptyMatches(s: Bytes, p: Bytes, from: nat, i: nat)
    requires p == [] && Edge(s, from, i)
    ensures Matches(s, p, i)
  {
  }

  lemma FoundHere(s: Bytes, p: Bytes, from: nat, i: nat)
    requires Edge(s, from, i) && Matches(s, p, i) && Passed(s, p, from, i)
    ensures FirstMatch(s, p, from, i) && !NoMatch(s, p, from) && forall k: nat :: FirstMatch(s, p, from, k) ==> k == i
  {
    FirstOnly(s, p, from, i);
  }

  /** The walk has come to the end. */
  lemma NowhereTo(s: Bytes, p: Bytes, from: nat)
    requires Edge(s, from, |s|) && Passed(s, p, from, |s|) && !Matches(s, p, |s|)
    ensures NoMatch(s, p, from) && Valid(s[from..]) && forall k: nat :: !FirstMatch(s, p, from, k)
    ensures from == 0 ==> Valid(s)
  {
    assert s[from..|s|] == s[from..];
    forall k: nat | Edge(s, from, k)
      ensures !Matches(s, p, k)
    {
    }
  }

  lemma ValidMeans(s: Bytes)
    ensures Valid(s) <==> Decode(s).Some?
  {
  }

  lemma LookNowhere(s: Bytes, p: Bytes, i: nat, g: nat, last: int)
    requires !(Valid(s) && Valid(p))
    ensures Looking(s, p, i, g, last)
  {
  }

  /** `ps_string_last_index_of`. */
  method LastIndexOf(s: Bytes, needle: Bytes) returns (r: Result<int>)
    ensures Valid(s) && Valid(needle) ==> r.Ok? && IsLastAt(Decode(s).value, Decode(needle).value, r.value)
    ensures !Valid(s) ==> r == Raised(InvalidUtf8)
    ensures Valid(s) && NoMatch(s, needle, 0) ==> r == Ok(-1)
    ensures Valid(s) ==> forall i: nat :: LastMatch(s, needle, i) ==> r == Ok(GlyphsBefore(s, i))
  {
    hide *;
    StartsAt(s, 0);
    NoneBefore(s, needle, 0);
    ValidMeans(s);
    ValidMeans(needle);
    if needle == [] {
      EmptyNeedle(s, needle);
      var n := GlyphLen(s);
      LastOfEmpty(s, needle);
      return match n case Some(count) => Ok(count) case None => Raised(InvalidUtf8);
    }
    ghost var ok := Valid(s) && Valid(needle);
    LookStart(s, needle);
    var i: nat, g: nat := 0, 0;
    var last: int := -1;
    LastStart(s, needle);
    while i <= |s|
      invariant i <= |s| && Looking(s, needle, i, g, last)
      invariant Edge(s, 0, i) && GlyphsBefore(s, i) == g && LastSoFar(s, needle, i, last)
      decreases |s| - i
    {
      ghost var before := last;
      if Matches(s, needle, i) { last := g; }
      LastOn(s, needle, i, before);
      if i == |s| {
        if ok { LookEnd(s, needle, g, before); }
        break;
      }
      EdgeStep(s, 0, i);
      NotWhole(s, i);
      if ok { LookOn(s, needle, i, g, before); }
      var step := NextAt(s, i);
      if step.None? { return Raised(InvalidUtf8); }
      i, g := i + step.value.adv, g + 1;
      if !ok { LookNowhere(s, needle, i, g, last); }
    }
    LastAtEnd(s, needle, last);
    r := Ok(last);
  }

  /** `last` counts the glyphs before the last match among the boundaries before `i`. */
  ghost predicate LastSoFar(s: Bytes, p: Bytes, i: nat, last: int) {
    if last == -1 then Passed(s, p, 0, i)
    else exists k: nat :: k < i && Edge(s, 0, k) && Matches(s, p, k) && GlyphsBefore(s, k) == last &&
                          forall j: nat :: k < j < i && Edge(s, 0, j) ==> !Matches(s, p, j)
  }

  /** The boundary `i` itself is looked at, and then no other before the next. */
  lemma LastOn(s: Bytes, p: Bytes, i: nat, last: int)
    requires Edge(s, 0, i) && LastSoFar(s, p, i, last)
    ensures var now := if Matches(s, p, i) then GlyphsBefore(s, i) else last;
            LastSoFar(s, p, i + 1, now) &&
            (i < |s| && NextAt(s, i).Some? ==> LastSoFar(s, p, i + NextAt(s, i).value.adv, now))
  {
    if i < |s| { EdgeStep(s, 0, i); }
    hide Edge;
    hide Matches;
    hide NextAt;
    hide GlyphsBefore;
    if !Matches(s, p, i) && last != -1 {
      var k: nat :| k < i && Edge(s, 0, k) && Matches(s, p, k) && GlyphsBefore(s, k) == last &&
                    forall j: nat :: k < j < i && Edge(s, 0, j) ==> !Matches(s, p, j);
    }
  }

  lemma NotWhole(s: Bytes, i: nat)
    requires i < |s| && Edge(s, 0, i)
    ensures NextAt(s, i).None? ==> !Valid(s)
  {
    EdgeStep(s, 0, i);
    assert s[0..|s|] == s;
    hide Valid;
    assert Valid(s) ==> Edge(s, 0, |s|);
  }

  lemma LastAtEnd(s: Bytes, p: Bytes, last: int)
    requires Edge(s, 0, |s|) && LastSoFar(s, p, |s| + 1, last)
    ensures Valid(s) && (NoMatch(s, p, 0) ==> last == -1) &&
            forall i: nat :: LastMatch(s, p, i) ==> last == GlyphsBefore(s, i)
  {
    assert s[0..|s|] == s;
    hide Valid;
    hide Matches;
    hide GlyphsBefore;
    if last == -1 {
      assert forall i: nat :: Edge(s, 0, i) ==> i < |s| + 1;
    } else {
      var k: nat :| k < |s| + 1 && Edge(s, 0, k) && Matches(s, p, k) && GlyphsBefore(s, k) == last &&
                    forall j: nat :: k < j < |s| + 1 && Edge(s, 0, j) ==> !Matches(s, p, j);
      assert LastMatch(s, p, k);
      LastOnly(s, p, k);
    }
  }

  lemma LastStart(s: Bytes, p: Bytes)
    requires Passed(s, p, 0, 0)
    ensures LastSoFar(s, p, 0, -1)
  {
  }

  lemma LastOfEmpty(s: Bytes, p: Bytes)
    requires p == []
    ensures Valid(s) ==> !NoMatch(s, p, 0) &&
                         forall i: nat :: LastMatch(s, p, i) ==> GlyphsBefore(s, i) == |Decode(s).value|
  {
    assert s[0..|s|] == s;
    if Valid(s) {
      assert LastMatch(s, p, |s|);
      LastOnly(s, p, |s|);
    }
  }

  // ----- cutting on bytes -----

  /** Between one glyph and the next no valid string can start. */
  lemma NoneInside(s: Bytes, i: nat, p: Bytes, k: nat)
    requires i < |s| && NextAt(s, i).Some? && i < k < i + NextAt(s, i).value.adv && Valid(p) && p != []
    ensures k <= |s| && !OccursAt(s, p, k)
  {
    var c := s[i..];
    assert s[k] == c[k - i] && Continues(s[k]);
    assert !Continues(p[0]);
    OccursIs(s, p, k);
    assert k + |p| <= |s| ==> s[k..k + |p|][0] == s[k];
  }

  /** `s[i..]` is valid, and `p` occurs nowhere from byte `last` up to byte `i`. */
  ghost predicate Walked(s: Bytes, p: Bytes, last: nat, i: nat) {
    last <= i <= |s| && Valid(s[i..]) && Valid(p) && p != [] && forall k :: last <= k < i ==> !OccursAt(s, p, k)
  }

  lemma WalkOn(s: Bytes, p: Bytes, last: nat, i: nat)
    requires Walked(s, p, last, i) && i < |s| && !OccursAt(s, p, i)
    ensures NextAt(s, i).Some? && Walked(s, p, last, i + NextAt(s, i).value.adv)
  {
    hide NextAt;
    DecodeStep(s, i);
    var n := i + NextAt(s, i).value.adv;
    forall k | last <= k < n
      ensures !OccursAt(s, p, k)
    {
      if i < k { NoneInside(s, i, p, k); }
    }
  }

  /** An occurrence at the walk's position is the first one after the last cut. */
  lemma WalkFound(s: Bytes, p: Bytes, last: nat, i: nat)
    requires Walked(s, p, last, i) && OccursAt(s, p, i)
    ensures FirstAt(s[last..], p) == Some(i - last) && i + |p| <= |s| && Walked(s, p, i + |p|, i + |p|)
  {
    hide Valid;
    hide OccursAt;
    OccursIs(s, p, i);
    OccursShift(s, p, last);
    FirstIs(s[last..], p, i - last);
    ValidAfter(s, p, i);
  }

  lemma FirstIs<T>(s: seq<T>, p: seq<T>, k: nat)
    requires k <= |s| && OccursAt(s, p, k) && forall j :: 0 <= j < k ==> !OccursAt(s, p, j)
    ensures FirstAt(s, p) == Some(k)
  {
    hide OccursAt;
    var r := FirstAt(s, p);
    assert r.Some?;
  }

  lemma OccursShift<T>(s: seq<T>, p: seq<T>, last: nat)
    requires last <= |s|
    ensures forall j :: 0 <= j <= |s| - last ==> (OccursAt(s[last..], p, j) <==> OccursAt(s, p, last + j))
  {
    forall j | 0 <= j <= |s| - last
      ensures OccursAt(s[last..], p, j) <==> OccursAt(s, p, last + j)
    {
      assert s[last..][j..] == s[last + j..];
    }
  }

  /** What follows a valid string inside a valid one is valid. */
  lemma ValidAfter(s: Bytes, p: Bytes, i: nat)
    requires i + |p| <= |s| && s[i..i + |p|] == p && Valid(s[i..]) && Valid(p)
    ensures Valid(s[i + |p|..])
  {
    assert s[i..] == p + s[i + |p|..];
    ValidSuffix(p, s[i + |p|..]);
  }

  lemma WalkEnd(s: Bytes, p: Bytes, last: nat, i: nat)
    requires Walked(s, p, last, i) && i + |p| > |s|
    ensures FirstAt(s[last..], p).None?
  {
    hide Valid;
    OccursShift(s, p, last);
    Fits(s, p);
    hide OccursAt;
    FirstNone(s[last..], p);
  }

  lemma Fits<T>(s: seq<T>, p: seq<T>)
    ensures forall k :: OccursAt(s, p, k) ==> k + |p| <= |s|
  {
  }

  lemma FirstNone<T>(s: seq<T>, p: seq<T>)
    requires forall j :: 0 <= j <= |s| ==> !OccursAt(s, p, j)
    ensures FirstAt(s, p).None?
  {
    hide OccursAt;
  }

  lemma WalkStart(s: Bytes, p: Bytes)
    requires Valid(s) && Valid(p) && p != []
    ensures Walked(s, p, 0, 0)
  {
    assert s[0..] == s;
  }

  lemma SplitFound<T>(s: seq<T>, sep: seq<T>, k: nat)
    requires sep != [] && FirstAt(s, sep) == Some(k)
    ensures Split(s, sep) == [s[..k]] + Split(s[k + |sep|..], sep)
  {
  }

  /** On valid strings: what is cut off so far, and what is still to be cut, make up the whole split. */
  ghost predicate Cutting(s: Bytes, sep: Bytes, last: nat, i: nat, out: seq<Bytes>) {
    Valid(s) && Valid(sep) && sep != [] ==> Walked(s, sep, last, i) && out + Split(s[last..], sep) == Split(s, sep)
  }

  lemma CutStart(s: Bytes, sep: Bytes)
    ensures Cutting(s, sep, 0, 0, [])
  {
    assert s[0..] == s;
    if Valid(s) && Valid(sep) && sep != [] {
      WalkStart(s, sep);
      assert [] + Split(s, sep) == Split(s, sep);
    }
  }

  lemma CutHere(s: Bytes, sep: Bytes, last: nat, i: nat, out: seq<Bytes>)
    requires Cutting(s, sep, last, i, out) && last <= i <= |s| && Matches(s, sep, i)
    ensures i + |sep| <= |s| && Cutting(s, sep, i + |sep|, i + |sep|, out + [s[last..i]])
  {
    hide Walked;
    hide Valid;
    hide Split;
    hide FirstAt;
    MatchesOccurs(s, sep, i);
    if Valid(s) && Valid(sep) && sep != [] {
      WalkFound(s, sep, last, i);
      SplitFound(s[last..], sep, i - last);
      CutTwice(s, last, i, |sep|);
      Shift(out, s[last..i], Split(s[i + |sep|..], sep));
    }
  }

  lemma CutOn(s: Bytes, sep: Bytes, last: nat, i: nat, out: seq<Bytes>)
    requires Cutting(s, sep, last, i, out) && i < |s| && !Matches(s, sep, i)
    ensures NextAt(s, i).Some? ==> Cutting(s, sep, last, i + NextAt(s, i).value.adv, out)
    ensures Valid(s) && Valid(sep) && sep != [] ==> NextAt(s, i).Some?
  {
    hide Walked;
    hide Valid;
    hide Split;
    hide Matches;
    hide NextAt;
    MatchesOccurs(s, sep, i);
    if Valid(s) && Valid(sep) && sep != [] { WalkOn(s, sep, last, i); }
  }

  lemma CutEnd(s: Bytes, sep: Bytes, last: nat, i: nat, out: seq<Bytes>)
    requires Cutting(s, sep, last, i, out) && last <= |s| && i + |sep| > |s| && sep != []
    ensures Valid(s) && Valid(sep) ==> out + [s[last..]] == Split(s, sep)
  {
    if Valid(s) && Valid(sep) { SplitEnd(s, sep, last, i); }
  }

  /** The parts from byte `from` on, for any bytes: a cut at the first boundary at which the separator
      stands, counting boundaries from the last cut; a panic if the walk gets stuck on the way. */
  ghost function Parts(s: Bytes, sep: Bytes, from: nat): Result<seq<Bytes>>
    requires sep != [] && from <= |s|
    decreases |s| - from
  {
    if exists i: nat :: FirstMatch(s, sep, from, i) then
      var i: nat :| FirstMatch(s, sep, from, i);
      AfterParts([s[from..i]], Parts(s, sep, i + |sep|))
    else if Stuck(s, sep, from) then Raised(InvalidUtf8)
    else Ok([s[from..]])
  }

  function AfterParts(out: seq<Bytes>, r: Result<seq<Bytes>>): Result<seq<Bytes>> {
    match r
    case Ok(rest) => Ok(out + rest)
    case Raised(_) => r
  }

  lemma AfterNothing(r: Result<seq<Bytes>>)
    ensures AfterParts([], r) == r
  {
    if r.Ok? { assert [] + r.value == r.value; }
  }

  lemma PartsHere(s: Bytes, sep: Bytes, from: nat, i: nat, out: seq<Bytes>)
    requires sep != [] && Edge(s, from, i) && Matches(s, sep, i) && Passed(s, sep, from, i)
    ensures i + |sep| <= |s| && AfterParts(out, Parts(s, sep, from)) ==
                                AfterParts(out + [s[from..i]], Parts(s, sep, i + |sep|))
  {
    FoundHere(s, sep, from, i);
    PartsUnfold(s, sep, from, i);
    hide *;
    AfterTwice(out, s[from..i], Parts(s, sep, i + |sep|));
  }

  lemma PartsUnfold(s: Bytes, sep: Bytes, from: nat, i: nat)
    requires sep != [] && from <= |s| && FirstMatch(s, sep, from, i) &&
             forall k: nat :: FirstMatch(s, sep, from, k) ==> k == i
    ensures i + |sep| <= |s| && Parts(s, sep, from) == AfterParts([s[from..i]], Parts(s, sep, i + |sep|))
  {
    hide Passed;
    hide Edge;
    hide Stuck;
    hide AfterParts;
  }

  lemma AfterTwice(out: seq<Bytes>, part: Bytes, r: Result<seq<Bytes>>)
    ensures AfterParts(out, AfterParts([part], r)) == AfterParts(out + [part], r)
  {
    if r.Ok? { Shift(out, part, r.value); }
  }

  lemma PartsNone(s: Bytes, sep: Bytes, from: nat, out: seq<Bytes>)
    requires sep != [] && from <= |s|
    ensures NoMatch(s, sep, from) ==>
              AfterParts(out, Parts(s, sep, from)) == if Stuck(s, sep, from) then Raised(InvalidUtf8)
              else Ok(out + [s[from..]])
  {
    hide Edge;
    hide Matches;
    hide Stuck;
  }

  /** `ps_string_split`. */
  method SplitString(s: Bytes, sep: Bytes) returns (r: Result<seq<Bytes>>)
    ensures Valid(s) && Valid(sep) ==> r == Ok(if sep == [] then Glyphs(s) else Split(s, sep))
    ensures r == if sep != [] then Parts(s, sep, 0) else if Valid(s) then Ok(Glyphs(s)) else Raised(InvalidUtf8)
  {
    hide *;
    if sep == [] {
      r := SplitGlyphs(s);
      return;
    }
    var out: seq<Bytes>, i: nat, last: nat := [], 0, 0;
    CutStart(s, sep);
    StartsAt(s, 0);
    NoneBefore(s, sep, 0);
    AfterNothing(Parts(s, sep, 0));
    while i + |sep| <= |s|
      invariant last <= i <= |s| && Cutting(s, sep, last, i, out)
      invariant Edge(s, last, i) && Passed(s, sep, last, i) && AfterParts(out, Parts(s, sep, last)) == Parts(s, sep, 0)
      decreases |s| - i
    {
      if Matches(s, sep, i) {
        CutHere(s, sep, last, i, out);
        PartsHere(s, sep, last, i, out);
        StartsAt(s, i + |sep|);
        NoneBefore(s, sep, i + |sep|);
        out := out + [s[last..i]];
        i := i + |sep|;
        last := i;
        continue;
      }
      CutOn(s, sep, last, i, out);
      EdgeStep(s, last, i);
      PassedOn(s, sep, last, i);
      PartsNone(s, sep, last, out);
      var step := NextAt(s, i);
      if step.None? { return Raised(InvalidUtf8); }
      i := i + step.value.adv;
    }
    CutEnd(s, sep, last, i, out);
    PassedAll(s, sep, last, i);
    PartsNone(s, sep, last, out);
    r := Ok(out + [s[last..]]);
  }

  lemma Shift<T>(a: seq<T>, x: T, b: seq<T>)
    ensures a + ([x] + b) == (a + [x]) + b
  {
  }

  lemma SplitEnd(s: Bytes, sep: Bytes, last: nat, i: nat)
    requires Walked(s, sep, last, i) && i + |sep| > |s|
    ensures sep != [] && Split(s[last..], sep) == [s[last..]]
  {
    WalkEnd(s, sep, last, i);
  }

  lemma CutTwice<T>(s: seq<T>, last: nat, i: nat, n: nat)
    requires last <= i && i + n <= |s|
    ensures s[last..][..i - last] == s[last..i] && s[last..][i - last + n..] == s[i + n..]
  {
  }

  lemma WholeIs(s: Bytes)
    requires Edge(s, 0, |s|)
    ensures Valid(s)
  {
    assert s[0..|s|] == s;
  }

  /** On a valid string: the glyphs so far and those still to come are all glyphs. */
  ghost predicate Spelling(s: Bytes, i: nat, out: seq<Bytes>) {
    Valid(s) ==> i <= |s| && Valid(s[i..]) && out + Glyphs(s[i..]) == Glyphs(s)
  }

  lemma SpellStart(s: Bytes)
    ensures Spelling(s, 0, [])
  {
    assert s[0..] == s;
    if Valid(s) { assert [] + Glyphs(s) == Glyphs(s); }
  }

  lemma SpellOn(s: Bytes, i: nat, out: seq<Bytes>)
    requires Spelling(s, i, out) && i < |s|
    ensures Valid(s) ==> NextAt(s, i).Some?
    ensures NextAt(s, i).Some? ==> var j := i + NextAt(s, i).value.adv; Spelling(s, j, out + [s[i..j]])
  {
    hide Valid;
    hide Glyphs;
    hide NextAt;
    if Valid(s) {
      GlyphsStep(s, i);
      var j := i + NextAt(s, i).value.adv;
      Shift(out, s[i..j], Glyphs(s[j..]));
    }
  }

  lemma SpellEnd(s: Bytes, out: seq<Bytes>)
    requires Spelling(s, |s|, out)
    ensures Valid(s) ==> out == Glyphs(s)
  {
    assert s[|s|..] == [];
  }

  lemma GlyphsStep(s: Bytes, i: nat)
    requires i < |s| && Valid(s[i..])
    ensures var r := NextAt(s, i);
            r.Some? && Valid(s[i + r.value.adv..]) &&
            Glyphs(s[i..]) == [s[i..i + r.value.adv]] + Glyphs(s[i + r.value.adv..])
  {
    hide Next;
    hide Glyphs;
    hide Valid;
    GlyphsUnfold(s[i..]);
    var n := NextAt(s, i).value.adv;
    assert s[i..][..n] == s[i..i + n] && s[i..][n..] == s[i + n..];
  }

  lemma GlyphsUnfold(t: Bytes)
    requires t != [] && Valid(t)
    ensures Next(t).Some? && Valid(t[Next(t).value.adv..])
    ensures var n := Next(t).value.adv; Glyphs(t) == [t[..n]] + Glyphs(t[n..])
  {
    hide Next;
  }

  method SplitGlyphs(s: Bytes) returns (r: Result<seq<Bytes>>)
    ensures r == if Valid(s) then Ok(Glyphs(s)) else Raised(InvalidUtf8)
  {
    hide *;
    var out: seq<Bytes>, i: nat := [], 0;
    SpellStart(s);
    StartsAt(s, 0);
    while i < |s|
      invariant i <= |s| && Spelling(s, i, out) && Edge(s, 0, i)
    {
      EdgeStep(s, 0, i);
      NotWhole(s, i);
      SpellOn(s, i, out);
      var step := NextAt(s, i);
      if step.None? { return Raised(InvalidUtf8); }
      var n := step.value.adv;
      out := out + [s[i..i + n]];
      i := i + n;
    }
    SpellEnd(s, out);
    WholeIs(s);
    r := Ok(out);
  }

  /** `s` with its first `pat` replaced. */
  function ReplacedFirst(s: Bytes, pat: Bytes, sub: Bytes): Bytes {
    if pat == [] then s
    else match FirstAt(s, pat) case None => s case Some(k) => s[..k] + sub + s[k + |pat|..]
  }

  lemma ReplacedHere(s: Bytes, pat: Bytes, sub: Bytes, i: nat)
    requires Cutting(s, pat, 0, i, []) && Matches(s, pat, i) && i <= |s| && pat != []
    ensures i + |pat| <= |s|
    ensures Valid(s) && Valid(pat) ==> ReplacedFirst(s, pat, sub) == s[..i] + sub + s[i + |pat|..]
  {
    hide Walked;
    hide Valid;
    hide Split;
    hide FirstAt;
    MatchesOccurs(s, pat, i);
    if Valid(s) && Valid(pat) {
      WalkFound(s, pat, 0, i);
      assert s[0..] == s;
    }
  }

  lemma ReplacedNone(s: Bytes, pat: Bytes, sub: Bytes, i: nat)
    requires Cutting(s, pat, 0, i, []) && i + |pat| > |s| && pat != []
    ensures Valid(s) && Valid(pat) ==> ReplacedFirst(s, pat, sub) == s
  {
    hide Split;
    hide FirstAt;
    if Valid(s) && Valid(pat) {
      WalkEnd(s, pat, 0, i);
      assert s[0..] == s;
    }
  }

  /** `ps_string_replace`: the first occurrence only. */
  method Replace(s: Bytes, pat: Bytes, sub: Bytes) returns (r: Result<Bytes>)
    ensures pat == [] ==> r == Ok(s)
    ensures pat != [] && Valid(s) && Valid(pat) ==>
              r == Ok(match FirstAt(s, pat)
                      case None => s
                      case Some(k) => s[..k] + sub + s[k + |pat|..])
    ensures pat != [] ==> forall i: nat :: FirstMatch(s, pat, 0, i) ==> r == Ok(s[..i] + sub + s[i + |pat|..])
    ensures pat != [] && NoMatch(s, pat, 0) ==> r == if Stuck(s, pat, 0) then Raised(InvalidUtf8) else Ok(s)
  {
    hide *;
    if pat == [] { return Ok(s); }
    StartsAt(s, 0);
    NoneBefore(s, pat, 0);
    ReplacedIs(s, pat, sub);
    var i: nat := 0;
    CutStart(s, pat);
    while i + |pat| <= |s|
      invariant i <= |s| && Cutting(s, pat, 0, i, []) && Edge(s, 0, i) && Passed(s, pat, 0, i)
      decreases |s| - i
    {
      if Matches(s, pat, i) {
        FoundHere(s, pat, 0, i);
        ReplacedHere(s, pat, sub, i);
        return Ok(s[..i] + sub + s[i + |pat|..]);
      }
      CutOn(s, pat, 0, i, []);
      EdgeStep(s, 0, i);
      PassedOn(s, pat, 0, i);
      var step := NextAt(s, i);
      if step.None? { return Raised(InvalidUtf8); }
      i := i + step.value.adv;
    }
    PassedAll(s, pat, 0, i);
    ReplacedNone(s, pat, sub, i);
    r := Ok(s);
  }

  lemma ReplacedIs(s: Bytes, pat: Bytes, sub: Bytes)
    requires pat != []
    ensures ReplacedFirst(s, pat, sub) == match FirstAt(s, pat) case None => s case Some(k) =>
                                            s[..k] + sub + s[k + |pat|..]
  {
    hide FirstAt;
  }

  // ----- replacing all occurrences, in two passes over the bytes -----

  /** What the walk from byte `i` writes; `None` if it meets an invalid byte. */
  function WalkRewrite(s: Bytes, pat: Bytes, sub: Bytes, i: nat): Option<Bytes>
    requires pat != [] && i <= |s|
    decreases |s| - i
  {
    if Matches(s, pat, i) then Prepend(sub, WalkRewrite(s, pat, sub, i + |pat|))
    else if i == |s| then Some([])
    else
      match NextAt(s, i)
      case None => None
      case Some(g) => Prepend(s[i..i + g.adv], WalkRewrite(s, pat, sub, i + g.adv))
  }

  function Prepend(a: Bytes, b: Option<Bytes>): Option<Bytes> {
    match b case Some(rest) => Some(a + rest) case None => None
  }

  function WalkCount(s: Bytes, pat: Bytes, i: nat): Option<nat>
    requires pat != [] && i <= |s|
    decreases |s| - i
  {
    if Matches(s, pat, i) then Plus(WalkCount(s, pat, i + |pat|), 1)
    else if i == |s| then Some(0)
    else
      match NextAt(s, i)
      case None => None
      case Some(g) => WalkCount(s, pat, i + g.adv)
  }

  /** The second pass writes exactly as many bytes as the first pass has counted. */
  lemma {:induction false} CountedLength(s: Bytes, pat: Bytes, sub: Bytes, i: nat)
    requires pat != [] && i <= |s|
    ensures WalkRewrite(s, pat, sub, i).Some? <==> WalkCount(s, pat, i).Some?
    ensures var w, n := WalkRewrite(s, pat, sub, i), WalkCount(s, pat, i);
            w.Some? ==> |w.value| == |s| - i + n.value * (|sub| - |pat|) && n.value * |pat| <= |s| - i &&
                        (n.value == 0 ==> w.value == s[i..])
    decreases |s| - i
  {
    hide NextAt;
    if Matches(s, pat, i) {
      CountedLength(s, pat, sub, i + |pat|);
      CountUnfold(s, pat, i);
      WalkUnfold(s, pat, sub, i);
      hide WalkRewrite;
      hide WalkCount;
      hide Matches;
      var n := WalkCount(s, pat, i + |pat|);
      if n.Some? { OneMore(n.value, |sub|, |pat|); }
    } else if i < |s| && NextAt(s, i).Some? {
      var j := i + NextAt(s, i).value.adv;
      CountedLength(s, pat, sub, j);
      assert s[i..j] + s[j..] == s[i..];
    }
  }

  lemma OneMore(n: nat, m: nat, o: nat)
    ensures (n + 1) * (m - o) == n * (m - o) + m - o && (n + 1) * o == n * o + o
  {
  }

  lemma CountUnfold(s: Bytes, pat: Bytes, i: nat)
    requires pat != [] && i <= |s| && Matches(s, pat, i)
    ensures i + |pat| <= |s|
    ensures WalkCount(s, pat, i) == match WalkCount(s, pat, i + |pat|) case Some(n) => Some(n + 1) case None => None
  {
    hide NextAt;
  }

  /** On valid strings the walk meets no invalid byte and rewrites every occurrence. */
  lemma {:induction false} WalkIsRewrite(s: Bytes, pat: Bytes, sub: Bytes, i: nat)
    requires i <= |s| && Valid(s[i..]) && Valid(pat) && pat != []
    ensures WalkRewrite(s, pat, sub, i) == Some(Rewrite(s[i..], pat, sub))
    decreases |s| - i
  {
    hide *;
    OccursIs(s, pat, i);
    WalkUnfold(s, pat, sub, i);
    if Matches(s, pat, i) {
      MatchesIs(s, pat, i);
      ValidAfter(s, pat, i);
      WalkIsRewrite(s, pat, sub, i + |pat|);
      RewriteHere(s, pat, sub, i);
      Prepended(sub, Rewrite(s[i + |pat|..], pat, sub));
    } else if i == |s| {
      RewriteNothing(s[i..], pat, sub);
    } else {
      MatchesIs(s, pat, i);
      var at := i + StepOver(s, i);
      WalkIsRewrite(s, pat, sub, at);
      SkipOver(s, pat, sub, i, at);
      Prepended(s[i..at], Rewrite(s[at..], pat, sub));
    }
  }

  ghost function StepOver(s: Bytes, i: nat): (n: nat)
    requires i < |s| && Valid(s[i..])
    ensures NextAt(s, i).Some? && n == NextAt(s, i).value.adv && i + n <= |s| && Valid(s[i + n..])
  {
    hide NextAt;
    DecodeStep(s, i);
    NextAt(s, i).value.adv
  }

  lemma WalkUnfold(s: Bytes, pat: Bytes, sub: Bytes, i: nat)
    requires pat != [] && i <= |s|
    ensures Matches(s, pat, i) ==> WalkRewrite(s, pat, sub, i) == Prepend(sub, WalkRewrite(s, pat, sub, i + |pat|))
    ensures !Matches(s, pat, i) && i == |s| ==> WalkRewrite(s, pat, sub, i) == Some([])
    ensures !Matches(s, pat, i) && i < |s| && NextAt(s, i).Some? ==>
              var at := i + NextAt(s, i).value.adv;
              WalkRewrite(s, pat, sub, i) == Prepend(s[i..at], WalkRewrite(s, pat, sub, at))
    ensures Matches(s, pat, i) ==> i + |pat| <= |s|
  {
    hide NextAt;
  }

  lemma Prepended(a: Bytes, b: Bytes)
    ensures Prepend(a, Some(b)) == Some(a + b)
  {
  }

  lemma MatchesIs(s: Bytes, p: Bytes, i: nat)
    ensures Matches(s, p, i) <==> i + |p| <= |s| && s[i..i + |p|] == p
  {
  }

  lemma RewriteNothing<T>(s: seq<T>, pat: seq<T>, sub: seq<T>)
    requires pat != [] && s == []
    ensures Rewrite(s, pat, sub) == []
  {
  }

  lemma RewriteUnfold<T>(s: seq<T>, pat: seq<T>, sub: seq<T>)
    requires pat != []
    ensures Rewrite(s, pat, sub) ==
            match FirstAt(s, pat)
            case None => s
            case Some(k) => s[..k] + sub + Rewrite(s[k + |pat|..], pat, sub)
  {
    hide OccursAt;
    var r := FirstAt(s, pat);
    assert r.Some? ==> r.value + |pat| <= |s|;
    hide FirstAt;
  }

  lemma FirstZero<T>(s: seq<T>, p: seq<T>)
    requires p <= s
    ensures FirstAt(s, p) == Some(0)
  {
  }

  lemma FirstLater<T>(s: seq<T>, p: seq<T>)
    requires !(p <= s) && s != []
    ensures FirstAt(s, p) == match FirstAt(s[1..], p) case Some(k) => Some(k + 1) case None => None
  {
  }

  lemma RewriteHere<T>(s: seq<T>, pat: seq<T>, sub: seq<T>, i: nat)
    requires pat != [] && i + |pat| <= |s| && s[i..i + |pat|] == pat
    ensures Rewrite(s[i..], pat, sub) == sub + Rewrite(s[i + |pat|..], pat, sub)
  {
    hide FirstAt;
    hide Rewrite;
    var t := s[i..];
    assert t[..|pat|] == pat;
    FirstZero(t, pat);
    RewriteUnfold(t, pat, sub);
    assert t[0 + |pat|..] == s[i + |pat|..] && t[..0] + sub == sub;
  }

  /** Bytes at which nothing starts are kept. */
  lemma {:induction false} RewriteSkip<T>(s: seq<T>, pat: seq<T>, sub: seq<T>, i: nat, j: nat)
    requires pat != [] && i <= j <= |s| && forall k :: i <= k < j ==> !OccursAt(s, pat, k)
    ensures Rewrite(s[i..], pat, sub) == s[i..j] + Rewrite(s[j..], pat, sub)
    decreases j - i
  {
    hide OccursAt;
    hide Rewrite;
    if i < j {
      RewriteSkip(s, pat, sub, i + 1, j);
      RewriteOne(s, pat, sub, i);
      assert s[i..j] == [s[i]] + s[i + 1..j];
    } else {
      assert s[i..j] + Rewrite(s[j..], pat, sub) == Rewrite(s[j..], pat, sub);
    }
  }

  lemma RewriteOne<T>(s: seq<T>, pat: seq<T>, sub: seq<T>, i: nat)
    requires pat != [] && i < |s| && !OccursAt(s, pat, i)
    ensures Rewrite(s[i..], pat, sub) == [s[i]] + Rewrite(s[i + 1..], pat, sub)
  {
    hide FirstAt;
    hide Rewrite;
    var t, u := s[i..], s[i + 1..];
    assert t[1..] == u && t == [s[i]] + u;
    FirstLater(t, pat);
    RewriteUnfold(t, pat, sub);
    RewriteUnfold(u, pat, sub);
    var r := FirstAt(u, pat);
    if r.Some? {
      var k := r.value;
      assert t[..k + 1] == [s[i]] + u[..k] && t[k + 1 + |pat|..] == u[k + |pat|..];
    }
  }

  lemma SkipOver(s: Bytes, pat: Bytes, sub: Bytes, i: nat, at: nat)
    requires i < |s| && NextAt(s, i).Some? && at == i + NextAt(s, i).value.adv && at <= |s|
    requires Valid(pat) && pat != [] && !OccursAt(s, pat, i)
    ensures Rewrite(s[i..], pat, sub) == s[i..at] + Rewrite(s[at..], pat, sub)
  {
    hide NextAt;
    hide Valid;
    hide OccursAt;
    forall k | i <= k < at
      ensures !OccursAt(s, pat, k)
    {
      if i < k { NoneInside(s, i, pat, k); }
    }
    RewriteSkip(s, pat, sub, i, at);
  }

  /** `ps_string_replace_all`: count, then write into a buffer of the counted size. */
  method ReplaceAll(s: Bytes, pat: Bytes, sub: Bytes) returns (r: Result<Bytes>)
    ensures pat == [] ==> r == Raised(InvalidArgument)
    ensures pat != [] ==> r == match WalkRewrite(s, pat, sub, 0) case Some(w) => Ok(w) case None => Raised(InvalidUtf8)
    ensures pat != [] && Valid(s) && Valid(pat) ==> r == Ok(Rewrite(s, pat, sub))
  {
    if pat == [] { return Raised(InvalidArgument); }
    assert s[0..] == s;
    if Valid(s) && Valid(pat) { WalkIsRewrite(s, pat, sub, 0); }
    CountedLength(s, pat, sub, 0);
    var counted := CountOccurrences(s, pat);
    if counted.None? { return Raised(InvalidUtf8); }
    var count := counted.value;
    if count == 0 { return Ok(s); }
    var outLen := if |sub| >= |pat| then |s| + count * (|sub| - |pat|) else |s| - count * (|pat| - |sub|);
    LengthIs(|s|, |pat|, |sub|, count);
    var w := WriteReplaced(s, pat, sub, outLen);
    r := Ok(w);
  }

  lemma LengthIs(n: nat, o: nat, m: nat, count: nat)
    requires count * o <= n
    ensures n + count * (m - o) >= 0 && count * (m - o) == -(count * (o - m))
  {
    assert count * (m - o) == count * m - count * o;
    assert count * (o - m) == count * o - count * m;
  }

  lemma CountStep(s: Bytes, pat: Bytes, i: nat)
    requires pat != [] && i <= |s|
    ensures WalkCount(s, pat, i) ==
            if Matches(s, pat, i) then Plus(WalkCount(s, pat, i + |pat|), 1)
            else if i == |s| then Some(0)
            else if NextAt(s, i).None? then None
            else WalkCount(s, pat, i + NextAt(s, i).value.adv)
  {
    hide NextAt;
  }

  lemma MatchesIn(s: Bytes, p: Bytes, i: nat)
    requires Matches(s, p, i)
    ensures i + |p| <= |s|
  {
  }

  method CountOccurrences(s: Bytes, pat: Bytes) returns (r: Option<nat>)
    requires pat != []
    ensures r == WalkCount(s, pat, 0)
  {
    hide *;
    var count: nat, i: nat := 0, 0;
    PlusIs(WalkCount(s, pat, 0), 0);
    while i <= |s|
      invariant i <= |s| && WalkCount(s, pat, 0) == Plus(WalkCount(s, pat, i), count)
      decreases |s| - i
    {
      CountStep(s, pat, i);
      PlusIs(WalkCount(s, pat, i), count);
      if Matches(s, pat, i) {
        MatchesIn(s, pat, i);
        PlusMore(WalkCount(s, pat, i + |pat|), count);
        count, i := count + 1, i + |pat|;
        continue;
      }
      if i == |s| { break; }
      var step := NextAt(s, i);
      if step.None? { return None; }
      i := i + step.value.adv;
    }
    return Some(count);
  }

  method WriteReplaced(s: Bytes, pat: Bytes, sub: Bytes, outLen: nat) returns (w: Bytes)
    requires pat != [] && WalkRewrite(s, pat, sub, 0).Some? && |WalkRewrite(s, pat, sub, 0).value| == outLen
    ensures WalkRewrite(s, pat, sub, 0) == Some(w)
  {
    hide *;
    var buf := new Byte[outLen];
    var out: nat, i: nat := 0, 0;
    ghost var all, done: Bytes := WalkRewrite(s, pat, sub, 0).value, [];
    assert [] + all == all;
    while i <= |s|
      invariant i <= |s| && |done| == out <= outLen == buf.Length == |all| && WalkRewrite(s, pat, sub, i).Some?
      invariant buf[..out] == done && all == done + WalkRewrite(s, pat, sub, i).value
      decreases |s| - i
    {
      WalkSome(s, pat, sub, i);
      if Matches(s, pat, i) {
        WriteStep(all, done, sub, WalkRewrite(s, pat, sub, i + |pat|).value);
        Fill(buf, out, sub);
        done, out, i := done + sub, out + |sub|, i + |pat|;
        continue;
      }
      if i == |s| { break; }
      var adv: nat := NextAt(s, i).value.adv;
      WriteStep(all, done, s[i..i + adv], WalkRewrite(s, pat, sub, i + adv).value);
      Fill(buf, out, s[i..i + adv]);
      done, out, i := done + s[i..i + adv], out + adv, i + adv;
    }
    WalkSome(s, pat, sub, i);
    MatchesIs(s, pat, i);
    assert all == done + [] == done;
    assert buf[..] == buf[..out];
    w := buf[..];
  }

  lemma WriteStep(all: Bytes, done: Bytes, part: Bytes, rest: Bytes)
    requires all == done + (part + rest)
    ensures all == (done + part) + rest && |done| + |part| <= |all|
  {
  }

  lemma WalkSome(s: Bytes, pat: Bytes, sub: Bytes, i: nat)
    requires pat != [] && i <= |s| && WalkRewrite(s, pat, sub, i).Some?
    ensures var w := WalkRewrite(s, pat, sub, i).value;
            if Matches(s, pat, i) then
              i + |pat| <= |s| && WalkRewrite(s, pat, sub, i + |pat|).Some? &&
              w == sub + WalkRewrite(s, pat, sub, i + |pat|).value
            else if i == |s| then w == []
            else
              NextAt(s, i).Some? && var at := i + NextAt(s, i).value.adv;
                                 at <= |s| && |s[i..at]| == NextAt(s, i).value.adv &&
                                 WalkRewrite(s, pat, sub, at).Some? &&
                                 w == s[i..at] + WalkRewrite(s, pat, sub, at).value
  {
    hide NextAt;
  }

  /** `memcpy(buf + at, part, |part|)`. */
  method Fill(buf: array<Byte>, at: nat, part: Bytes)
    requires at + |part| <= buf.Length
    modifies buf
    ensures buf[..at + |part|] == old(buf[..at]) + part
  {
    var k := 0;
    while k < |part|
      invariant k <= |part| && buf[..at + k] == old(buf[..at]) + part[..k]
    {
      buf[at + k] := part[k];
      k := k + 1;
    }
    assert part[..k] == part;
  }

  // ----- join -----

  function TotalLength(parts: seq<Bytes>): nat
    decreases |parts|
  {
    if parts == [] then 0 else TotalLength(parts[..|parts| - 1]) + |parts[|parts| - 1]|
  }

  lemma {:induction false} JoinLast(parts: seq<Bytes>, sep: Bytes)
    requires parts != []
    ensures var n := |parts| - 1; Join(parts, sep) == if n == 0 then parts[0]
                                                      else Join(parts[..n], sep) + sep + parts[n]
    decreases |parts|
  {
    var n := |parts| - 1;
    if n > 0 {
      var front, last := parts[1..n], parts[n];
      assert parts == [parts[0]] + (front + [last]) && parts[..n] == [parts[0]] + front && parts[1..] == front + [last];
      JoinCons(parts[0], front + [last], sep);
      if front != [] {
        JoinLast(parts[1..], sep);
        assert parts[1..][..n - 1] == front;
        JoinCons(parts[0], front, sep);
        hide Join;
        Reassociate(parts[0] + sep, Join(front, sep), sep, last);
      } else {
        assert front + [last] == [last] && parts[..n] == [parts[0]];
      }
    }
  }

  lemma Reassociate(a: Bytes, b: Bytes, c: Bytes, d: Bytes)
    ensures a + (b + c + d) == (a + b) + c + d
  {
  }

  lemma {:induction false} JoinLength(parts: seq<Bytes>, sep: Bytes)
    ensures |Join(parts, sep)| == TotalLength(parts) + if parts == [] then 0 else |sep| * (|parts| - 1)
    decreases |parts|
  {
    if parts != [] {
      var n := |parts| - 1;
      JoinLast(parts, sep);
      JoinLength(parts[..n], sep);
      assert n > 0 ==> |sep| * n == |sep| * (n - 1) + |sep|;
    }
  }

  method JoinedSize(parts: seq<Bytes>, sep: Bytes) returns (total: nat)
    requires parts != []
    ensures total == |Join(parts, sep)|
  {
    total := 0;
    var k := 0;
    while k < |parts|
      invariant k <= |parts| && total == TotalLength(parts[..k])
    {
      assert parts[..k + 1][..k] == parts[..k];
      total, k := total + |parts[k]|, k + 1;
    }
    assert parts[..k] == parts;
    JoinLength(parts, sep);
    total := total + |sep| * (|parts| - 1);
  }

  /** What the buffer holds after `i` parts. */
  function Joined(parts: seq<Bytes>, sep: Bytes, i: nat): Bytes
    requires i <= |parts|
  {
    Join(parts[..i], sep)
  }

  lemma JoinedEnds(parts: seq<Bytes>, sep: Bytes)
    ensures Joined(parts, sep, 0) == [] && Joined(parts, sep, |parts|) == Join(parts, sep)
  {
    assert parts[..0] == [] && parts[..|parts|] == parts;
  }

  lemma JoinedMore(parts: seq<Bytes>, sep: Bytes, i: nat)
    requires i < |parts|
    ensures Joined(parts, sep, i + 1) ==
            (if i > 0 then Joined(parts, sep, i) + sep else Joined(parts, sep, i)) + parts[i]
    ensures |Joined(parts, sep, i + 1)| <= |Join(parts, sep)|
  {
    assert parts[..i + 1][..i] == parts[..i];
    JoinLast(parts[..i + 1], sep);
    JoinPrefix(parts, sep, i + 1);
    if i == 0 { assert parts[..0] == [] && [] + parts[0] == parts[0]; }
  }

  /** `ps_list_string_join`. */
  method JoinStrings(parts: seq<Bytes>, sep: Bytes) returns (r: Bytes)
    ensures r == Join(parts, sep)
  {
    hide *;
    JoinedEnds(parts, sep);
    if parts == [] { return []; }
    var total := JoinedSize(parts, sep);
    var buf := new Byte[total];
    var off: nat, i: nat := 0, 0;
    while i < |parts|
      invariant i <= |parts| && off <= total == buf.Length && buf[..off] == Joined(parts, sep, i)
    {
      JoinedMore(parts, sep, i);
      if i > 0 {
        Fill(buf, off, sep);
        off := off + |sep|;
      }
      Fill(buf, off, parts[i]);
      off, i := off + |parts[i]|, i + 1;
    }
    r := buf[..];
  }

  lemma {:induction false} JoinPrefix(parts: seq<Bytes>, sep: Bytes, k: nat)
    requires k <= |parts|
    ensures |Join(parts[..k], sep)| <= |Join(parts, sep)|
    decreases |parts| - k
  {
    hide Join;
    if k < |parts| {
      JoinPrefix(parts, sep, k + 1);
      assert parts[..k + 1][..k] == parts[..k];
      JoinLast(parts[..k + 1], sep);
      if k == 0 { JoinLength(parts[..0], sep); }
    } else {
      assert parts[..k] == parts;
    }
  }
}
