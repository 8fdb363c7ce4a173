/** Which hierarchies the checks on prototypes accept, said without the walks that find out. */
module Hierarchy {
  import opened Options
  import opened Prototypes

  // ----- what a sound hierarchy is -----

  /** From each prototype to its parent. */
  ghost predicate Path(list: Protos, c: Protos) {
    c != [] && (forall k :: 0 <= k < |c| ==> c[k] in list) &&
    forall k :: 0 <= k < |c| - 1 ==> c[k].parent == Some(c[k + 1].name)
  }

  /** `q` lies above `p`, at any distance. */
  ghost predicate IsAbove(list: Protos, q: Proto, p: Proto) {
    exists c: Protos :: Path(list, c) && |c| > 1 && c[0] == p && c[|c| - 1] == q
  }

  ghost predicate Acyclic(list: Protos) {
    forall p :: p in list ==> !IsAbove(list, p, p)
  }

  /** A value of the type `b` is expected, and one of the type `a` comes. */
  ghost predicate Narrows(list: Protos, a: string, b: string) {
    a == b || exists p, q :: p in list && q in list && p.name == a && q.name == b && IsAbove(list, q, p)
  }

  /** Calls of `base` that reach `m` see the same parameters and get what `base` promises. */
  ghost predicate MayReplace(list: Protos, base: Method, m: Method) {
    (m.isInternal ==> base.isInternal) &&
    m.params == base.params && m.fixedCount == base.fixedCount && m.variadic == base.variadic &&
    Narrows(list, m.ret, base.ret)
  }

  ghost predicate NoNameTwice(p: Proto) {
    (forall i, j :: 0 <= i < |p.fields| && 0 <= j < |p.fields| && p.fields[i].name == p.fields[j].name ==> i == j) &&
    forall i, j :: 0 <= i < |p.methods| && 0 <= j < |p.methods| && p.methods[i].name == p.methods[j].name ==> i == j
  }

  ghost predicate ParentKnown(list: Protos, p: Proto) {
    p.parent.Some? ==> exists q :: q in list && p.parent == Some(q.name) && !q.sealed
  }

  /** No field of `p` has the name of one above, and every method may replace those of its name above. */
  ghost predicate Extends(list: Protos, p: Proto, q: Proto) {
    (forall f, g :: f in p.fields && g in q.fields ==> f.name != g.name) &&
    forall m, base :: m in p.methods && base in q.methods && m.name == base.name ==> MayReplace(list, base, m)
  }

  ghost predicate Sound(list: Protos) {
    (forall i, j :: 0 <= i < |list| && 0 <= j < |list| && list[i].name == list[j].name ==> i == j) &&
    (forall p :: p in list ==> NoNameTwice(p) && ParentKnown(list, p)) &&
    forall p, q :: p in list && q in list && IsAbove(list, q, p) ==> Extends(list, p, q)
  }

  // ----- paths and chains -----

  lemma {:induction false} PathIsChain(list: Protos, c: Protos)
    requires DistinctProtos(list) && Path(list, c)
    ensures Chain(list, c[0].name, |c|) == c
    decreases |c|
  {
    FindMember(list, c[0]);
    ChainIs(list, c[0].name, |c|);
    hide Chain;
    hide Find;
    if |c| > 1 {
      PathRest(list, c);
      PathIsChain(list, c[1..]);
    } else {
      ChainIs(list, if c[0].parent.Some? then c[0].parent.value else "", 0);
    }
  }

  lemma PathRest(list: Protos, c: Protos)
    requires Path(list, c) && |c| > 1
    ensures Path(list, c[1..])
  {
  }

  lemma {:induction false} ChainIsPath(list: Protos, name: string, n: nat, i: nat, j: nat)
    requires i <= j < |Chain(list, name, n)|
    ensures Path(list, Chain(list, name, n)[i..j + 1])
  {
    var c := Chain(list, name, n);
    var part := c[i..j + 1];
    hide Chain;
    forall k | 0 <= k < |part| - 1
      ensures part[k].parent == Some(part[k + 1].name)
    {
      LinkUp(list, name, n, i + k);
    }
  }

  lemma LinkUp(list: Protos, name: string, n: nat, k: nat)
    requires k + 1 < |Chain(list, name, n)|
    ensures var c := Chain(list, name, n); c[k].parent == Some(c[k + 1].name)
  {
    ChainAbove(list, name, n, k);
    var c := Chain(list, name, n);
    if c[k].parent.Some? { ChainIs(list, c[k].parent.value, n - k - 1); }
    hide Chain;
    assert c[k + 1..][0] == c[k + 1];
  }

  /** What is above a prototype is in the chain of its parent. */
  lemma AboveInChain(list: Protos, q: Proto, p: Proto)
    requires DistinctProtos(list) && IsAbove(list, q, p)
    ensures p.parent.Some? && q in ChainOf(list, p.parent.value)
  {
    var c: Protos :| Path(list, c) && |c| > 1 && c[0] == p && c[|c| - 1] == q;
    PathRest(list, c);
    PathIsChain(list, c[1..]);
    hide Chain;
    ChainCovers(list, p.parent.value, |c| - 1, |c| - 2);
  }

  lemma InChainAbove(list: Protos, q: Proto, p: Proto)
    requires p in list && p.parent.Some? && q in ChainOf(list, p.parent.value)
    ensures IsAbove(list, q, p)
  {
    var up := ChainOf(list, p.parent.value);
    var k :| 0 <= k < |up| && up[k] == q;
    ChainIsPath(list, p.parent.value, |list|, 0, k);
    ChainIs(list, p.parent.value, |list|);
    hide Chain;
    assert up[0].name == p.parent.value;
    PathCons(list, p, up[0..k + 1]);
  }

  lemma PathCons(list: Protos, p: Proto, c: Protos)
    requires Path(list, c) && p in list && p.parent == Some(c[0].name)
    ensures IsAbove(list, c[|c| - 1], p)
  {
    var d := [p] + c;
    assert Path(list, d);
  }

  /** A chain without an end comes back to where it was. */
  lemma EndlessReturns(list: Protos, name: string) returns (p: Proto)
    requires !Ends(list, name)
    ensures p in list && IsAbove(list, p, p)
  {
    var c := Chain(list, name, |list| + 1);
    assert |c| > |list|;
    assert forall x :: x in c ==> x in list;
    hide *;
    var i, j := Repeats(list, c);
    ChainIsPath(list, name, |list| + 1, i, j);
    RoundTrip(list, c, i, j);
    p := c[i];
  }

  lemma RoundTrip(list: Protos, c: Protos, i: nat, j: nat)
    requires i < j < |c| && c[i] == c[j] && Path(list, c[i..j + 1])
    ensures c[i] in list && IsAbove(list, c[i], c[i])
  {
    var d := c[i..j + 1];
    assert d[0] == c[i] && d[|d| - 1] == c[j];
  }

  /** Where nothing is above itself, every chain ends. */
  lemma AcyclicEnds(list: Protos, name: string)
    requires Acyclic(list)
    ensures Ends(list, name)
  {
    hide Ends;
    hide IsAbove;
    if !Ends(list, name) { var p := EndlessReturns(list, name); }
  }

  // ----- return types -----

  lemma NarrowsIsSubtype(list: Protos, a: string, b: string)
    requires DistinctProtos(list) && forall p :: p in list ==> ParentKnown(list, p)
    ensures Narrows(list, a, b) <==> Subtype(list, a, b)
  {
    hide Chain;
    if a != b && Subtype(list, a, b) {
      var chain := ChainOf(list, a);
      var p :| p in chain && p.parent == Some(b);
      var k :| 0 <= k < |chain| && chain[k] == p;
      ChainIsPath(list, a, |list|, 0, k);
      ChainIs(list, a, |list|);
      assert ParentKnown(list, p);
      var q :| q in list && q.name == b;
      LastStep(list, chain[0..k + 1], q);
      assert IsAbove(list, q, chain[0]) && chain[0] in list && chain[0].name == a;
    }
    if a != b && Narrows(list, a, b) {
      var p, q :| p in list && q in list && p.name == a && q.name == b && IsAbove(list, q, p);
      var c: Protos :| Path(list, c) && |c| > 1 && c[0] == p && c[|c| - 1] == q;
      PathIsChain(list, c);
      var k := |c| - 2;
      ChainCovers(list, a, |c|, k);
      assert c[k] in ChainOf(list, a) && c[k].parent == Some(b);
    }
  }

  lemma LastStep(list: Protos, c: Protos, q: Proto)
    requires Path(list, c) && q in list && c[|c| - 1].parent == Some(q.name)
    ensures IsAbove(list, q, c[0])
  {
    var d := c + [q];
    assert Path(list, d);
  }

  lemma ReplaceIsOverride(list: Protos, base: Method, m: Method)
    requires DistinctProtos(list) && forall p :: p in list ==> ParentKnown(list, p)
    ensures MayReplace(list, base, m) <==> Overrides(list, base, m)
  {
    NarrowsIsSubtype(list, m.ret, base.ret);
    hide Narrows;
    hide Subtype;
  }

  // ----- the checks decide soundness -----

  lemma ParentsFound(list: Protos)
    requires Accepts(list)
    ensures forall p :: p in list ==> ParentKnown(list, p)
  {
    forall p | p in list
      ensures ParentKnown(list, p)
    {
      hide FieldIn;
      hide Overrides;
      assert AcceptsOne(list, p);
    }
  }

  lemma NoFieldAgain(list: Protos, p: Proto, q: Proto)
    requires Accepts(list) && p in list && p.parent.Some? && q in ChainOf(list, p.parent.value)
    ensures forall f, g :: f in p.fields && g in q.fields ==> f.name != g.name
  {
    hide Chain;
    hide Overrides;
    assert AcceptsOne(list, p);
    forall f, g | f in p.fields && g in q.fields
      ensures f.name != g.name
    {
      assert !FieldIn(ChainOf(list, p.parent.value), f.name);
    }
  }

  lemma OverridesAbove(list: Protos, p: Proto, q: Proto, m: Method, base: Method)
    requires Accepts(list) && p in list && IsAbove(list, q, p)
    requires m in p.methods && base in q.methods && m.name == base.name
    ensures Overrides(list, base, m)
  {
    var c: Protos :| Path(list, c) && |c| > 1 && c[0] == p && c[|c| - 1] == q;
    PathIsChain(list, c);
    hide *;
    OverrideSound(list, p.name, |c|, |c| - 1, m, base);
  }

  lemma AcceptedIsSound(list: Protos)
    requires Accepts(list)
    ensures Sound(list)
  {
    ParentsFound(list);
    forall p, q | p in list && q in list && IsAbove(list, q, p)
      ensures Extends(list, p, q)
    {
      AboveInChain(list, q, p);
      NoFieldAgain(list, p, q);
      forall m, base | m in p.methods && base in q.methods && m.name == base.name
        ensures MayReplace(list, base, m)
      {
        OverridesAbove(list, p, q, m, base);
        ReplaceIsOverride(list, base, m);
      }
      hide MayReplace;
    }
    forall p | p in list
      ensures NoNameTwice(p)
    {
      assert UniqueNames(p);
    }
    hide AcceptsOne;
    hide UniqueNames;
    hide Extends;
    hide IsAbove;
    hide NoNameTwice;
    hide ParentKnown;
  }

  lemma {:induction false} MethodFrom(chain: Protos, name: string) returns (k: nat)
    requires MethodIn(chain, name).Some?
    ensures var m := MethodIn(chain, name).value; k < |chain| && m in chain[k].methods && m.name == name
  {
    k := 0;
    if OwnMethod(chain[0].methods, name).None? {
      k := MethodFrom(chain[1..], name);
      k := k + 1;
    }
  }

  lemma SoundOne(list: Protos, p: Proto)
    requires Sound(list) && DistinctProtos(list) && p in list && p.parent.Some?
    ensures AcceptsOne(list, p)
  {
    assert ParentKnown(list, p);
    var parent :| parent in list && p.parent == Some(parent.name) && !parent.sealed;
    FindMember(list, parent);
    var up := ChainOf(list, p.parent.value);
    hide Chain;
    hide IsAbove;
    hide MayReplace;
    forall f | f in p.fields
      ensures !FieldIn(up, f.name)
    {
      forall q | q in up
        ensures !HasField(q.fields, f.name)
      {
        InChainAbove(list, q, p);
        assert Extends(list, p, q);
      }
    }
    forall m | m in p.methods && MethodIn(up, m.name).Some?
      ensures Overrides(list, MethodIn(up, m.name).value, m)
    {
      var k := MethodFrom(up, m.name);
      InChainAbove(list, up[k], p);
      assert Extends(list, p, up[k]);
      ReplaceIsOverride(list, MethodIn(up, m.name).value, m);
    }
    hide Overrides;
    hide FieldIn;
  }

  lemma SoundIsAccepted(list: Protos)
    requires Sound(list)
    ensures Accepts(list)
  {
    forall p | p in list
      ensures UniqueNames(p) && AcceptsOne(list, p)
    {
      assert NoNameTwice(p);
      if p.parent.Some? { SoundOne(list, p); }
    }
  }

  /** Any declarations, on cycles too: the checks go through if and only if the hierarchy is sound and no
      walk runs into a cycle; and where nothing is above itself, they always say which it is. */
  lemma SoundIff(decls: seq<Proto>, builtins: Protos)
    requires DistinctProtos(builtins) && forall p :: p in builtins ==> UniqueNames(p)
    ensures var all := Collected(decls, builtins);
            (CollectAnswer(decls, builtins) == Said(true) <==> Sound(all) && forall p :: p in all ==> Quiet(all, p)) &&
            (Acyclic(all) ==> CollectAnswer(decls, builtins) == Said(Sound(all)))
  {
    hide *;
    var all := Collected(decls, builtins);
    AcceptedIff(decls, builtins);
    if Accepts(all) { AcceptedIsSound(all); }
    if Sound(all) { SoundIsAccepted(all); }
    if Acyclic(all) {
      forall p | p in all
        ensures Ends(all, p.name)
      {
        AcyclicEnds(all, p.name);
      }
      EndingDecides(decls, builtins);
    }
  }

  /** Returning something more general than a method above promises is an error. */
  lemma MoreGeneralIsRejected(decls: seq<Proto>, builtins: Protos, p: Proto, q: Proto, m: Method, base: Method,
                              general: Proto, promised: Proto)
    requires DistinctProtos(builtins) && forall x :: x in builtins ==> UniqueNames(x)
    requires var all := Collected(decls, builtins);
             Acyclic(all) && IsAbove(all, q, p) && IsAbove(all, general, promised)
    requires m in p.methods && base in q.methods && m.name == base.name
    requires m.ret == general.name && base.ret == promised.name
    ensures CollectAnswer(decls, builtins) == Said(false)
  {
    SoundIff(decls, builtins);
    hide *;
    if Sound(Collected(decls, builtins)) {
      MoreGeneralGoesRound(Collected(decls, builtins), p, q, m, base, general, promised);
    }
  }

  lemma MoreGeneralGoesRound(list: Protos, p: Proto, q: Proto, m: Method, base: Method, general: Proto, promised: Proto)
    requires Sound(list) && IsAbove(list, q, p) && IsAbove(list, general, promised)
    requires m in p.methods && base in q.methods && m.name == base.name
    requires m.ret == general.name && base.ret == promised.name
    ensures !Acyclic(list)
  {
    hide IsAbove;
    hide ParentKnown;
    hide NoNameTwice;
    BothInside(list, q, p);
    BothInside(list, general, promised);
    assert Extends(list, p, q);
    assert Narrows(list, general.name, promised.name);
    hide *;
    WhoNarrows(list, general, promised);
    if general != promised { AboveTransitive(list, promised, general, promised); }
    NotAcyclic(list, promised);
  }

  lemma WhoNarrows(list: Protos, a: Proto, b: Proto)
    requires Sound(list) && a in list && b in list && Narrows(list, a.name, b.name)
    ensures a == b || IsAbove(list, b, a)
  {
    if a.name == b.name {
      OneOfTheName(list, a, b);
    } else {
      var x, y :| x in list && y in list && x.name == a.name && y.name == b.name && IsAbove(list, y, x);
      hide *;
      OneOfTheName(list, a, x);
      OneOfTheName(list, b, y);
    }
  }

  lemma OneOfTheName(list: Protos, a: Proto, b: Proto)
    requires Sound(list) && a in list && b in list && a.name == b.name
    ensures a == b
  {
    hide IsAbove;
    hide Extends;
    hide ParentKnown;
    hide NoNameTwice;
  }

  lemma NotAcyclic(list: Protos, p: Proto)
    requires p in list && IsAbove(list, p, p)
    ensures !Acyclic(list)
  {
    hide IsAbove;
  }

  lemma BothInside(list: Protos, q: Proto, p: Proto)
    requires IsAbove(list, q, p)
    ensures q in list && p in list
  {
  }

  lemma AboveTransitive(list: Protos, a: Proto, b: Proto, c: Proto)
    requires IsAbove(list, a, b) && IsAbove(list, b, c)
    ensures IsAbove(list, a, c)
  {
    var up: Protos :| Path(list, up) && |up| > 1 && up[0] == b && up[|up| - 1] == a;
    var low: Protos :| Path(list, low) && |low| > 1 && low[0] == c && low[|low| - 1] == b;
    var all := low + up[1..];
    assert Path(list, all);
  }
}
