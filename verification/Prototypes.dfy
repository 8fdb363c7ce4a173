/** The prototype hierarchy: what the checks on overrides and fields guarantee along whole chains. */
module Prototypes {
  import opened Options
  import opened Arith

  datatype Field = Field(name: string, ty: string)
  datatype Method = Method(name: string, params: seq<string>, fixedCount: nat, variadic: bool, ret: string,
                           isInternal: bool)
  datatype Proto = Proto(name: string, parent: Option<string>, sealed: bool, fields: seq<Field>, methods: seq<Method>)

  type Protos = seq<Proto>

  // ----- lookups -----

  /** `proto_find`. */
  function Find(list: Protos, name: string): (r: Option<Proto>)
    ensures r.Some? ==> r.value in list && r.value.name == name
    ensures r.None? ==> forall p :: p in list ==> p.name != name
  {
    if list == [] then None else if list[0].name == name then Some(list[0]) else Find(list[1..], name)
  }

  /** The prototype, its parent, and so on up, `n` of them at most. */
  function Chain(list: Protos, name: string, n: nat): (r: Protos)
    ensures |r| <= n && forall p :: p in r ==> p in list
    decreases n
  {
    if n == 0 then []
    else
      match Find(list, name)
      case None => []
      case Some(p) => [p] + if p.parent.None? then [] else Chain(list, p.parent.value, n - 1)
  }

  /** A prototype and everything above it; on a cycle, one round at least. */
  function ChainOf(list: Protos, name: string): Protos {
    Chain(list, name, |list|)
  }

  /** The chain comes to an end, and does not run into a cycle. */
  predicate Ends(list: Protos, name: string) {
    |Chain(list, name, |list| + 1)| <= |list|
  }

  function OwnMethod(ms: seq<Method>, name: string): (r: Option<Method>)
    ensures r.Some? ==> r.value in ms && r.value.name == name
    ensures r.None? ==> forall m :: m in ms ==> m.name != name
  {
    if ms == [] then None else if ms[0].name == name then Some(ms[0]) else OwnMethod(ms[1..], name)
  }

  /** The nearest method of that name. */
  function MethodIn(chain: Protos, name: string): Option<Method> {
    if chain == [] then None
    else
      match OwnMethod(chain[0].methods, name)
      case Some(m) => Some(m)
      case None => MethodIn(chain[1..], name)
  }

  predicate HasField(fs: seq<Field>, name: string) {
    exists f :: f in fs && f.name == name
  }

  predicate FieldIn(chain: Protos, name: string) {
    exists p :: p in chain && HasField(p.fields, name)
  }

  /** The child's chain leads to the parent. */
  predicate Subtype(list: Protos, child: string, parent: string) {
    child == parent || Below(ChainOf(list, child), parent)
  }

  // ----- the checks -----

  predicate SameSignature(a: Method, b: Method) {
    |a.params| == |b.params| && a.fixedCount == b.fixedCount && a.variadic == b.variadic && a.params == b.params
  }

  predicate CovariantReturn(list: Protos, base: Method, over: Method) {
    base.ret == over.ret || Subtype(list, over.ret, base.ret)
  }

  /** `m` may override `base`. */
  predicate Overrides(list: Protos, base: Method, m: Method) {
    (!base.isInternal ==> !m.isInternal) && SameSignature(base, m) && CovariantReturn(list, base, m)
  }

  predicate UniqueNames(p: Proto) {
    (forall i, j :: 0 <= i < j < |p.fields| ==> p.fields[i].name != p.fields[j].name) &&
    (forall i, j :: 0 <= i < j < |p.methods| ==> p.methods[i].name != p.methods[j].name)
  }

  /** One prototype against its parent's chain; only the nearest method of each name is compared. */
  predicate AcceptsOne(list: Protos, p: Proto) {
    p.parent.None? ||
    (match Find(list, p.parent.value)
     case None => false
     case Some(parent) =>
       !parent.sealed &&
       var up := ChainOf(list, p.parent.value);
       (forall f :: f in p.fields ==> !FieldIn(up, f.name)) &&
       forall m :: m in p.methods ==>
                     match MethodIn(up, m.name) case None => true case Some(base) => Overrides(list, base, m))
  }

  ghost predicate Accepts(list: Protos) {
    DistinctProtos(list) && forall p :: p in list ==> UniqueNames(p) && AcceptsOne(list, p)
  }

  // ----- chains -----

  lemma FindMember(list: Protos, p: Proto)
    requires p in list && DistinctProtos(list)
    ensures Find(list, p.name) == Some(p)
  {
    var q := Find(list, p.name);
    assert q.Some?;
  }

  lemma ChainIs(list: Protos, name: string, n: nat)
    ensures n == 0 || Find(list, name).None? ==> Chain(list, name, n) == []
    ensures n > 0 && Find(list, name).Some? ==>
              var p := Find(list, name).value;
              p.name == name &&
              Chain(list, name, n) == [p] + if p.parent.None? then [] else Chain(list, p.parent.value, n - 1)
  {
  }

  /** Each prototype of a chain is the one that its name finds. */
  lemma {:induction false} ChainFound(list: Protos, name: string, n: nat, k: nat)
    requires k < |Chain(list, name, n)|
    ensures var p := Chain(list, name, n)[k]; Find(list, p.name) == Some(p)
    decreases n
  {
    ChainIs(list, name, n);
    hide *;
    var p := Find(list, name).value;
    if k > 0 { ChainFound(list, p.parent.value, n - 1, k - 1); }
  }

  /** A chain goes on like the chain of any of its members. */
  lemma {:induction false} ChainSuffix(list: Protos, name: string, n: nat, k: nat)
    requires k < |Chain(list, name, n)|
    ensures var c := Chain(list, name, n); c[k..] == Chain(list, c[k].name, n - k)
    decreases n
  {
    ChainIs(list, name, n);
    hide *;
    var c := Chain(list, name, n);
    var p := Find(list, name).value;
    if k > 0 {
      ChainSuffix(list, p.parent.value, n - 1, k - 1);
      assert c[k..] == Chain(list, p.parent.value, n - 1)[k - 1..];
    } else {
      assert c[0..] == c && c[0] == p;
    }
  }

  /** And like the chain of any of its parents. */
  lemma {:induction false} ChainAbove(list: Protos, name: string, n: nat, k: nat)
    requires k < |Chain(list, name, n)|
    ensures var c := Chain(list, name, n);
            c[k + 1..] == if c[k].parent.None? then [] else Chain(list, c[k].parent.value, n - k - 1)
  {
    ChainSuffix(list, name, n, k);
    ChainFound(list, name, n, k);
    var c := Chain(list, name, n);
    ChainIs(list, c[k].name, n - k);
    hide *;
    assert c[k + 1..] == c[k..][1..];
  }

  /** A shorter look at a chain sees its beginning. */
  lemma {:induction false} ChainPrefix(list: Protos, name: string, m: nat, n: nat)
    requires m <= n
    ensures var c, d := Chain(list, name, m), Chain(list, name, n);
            |c| <= |d| && c == d[..|c|] && (|c| == m || c == d)
    decreases m
  {
    ChainIs(list, name, m);
    ChainIs(list, name, n);
    hide *;
    if m > 0 && Find(list, name).Some? {
      var p := Find(list, name).value;
      if p.parent.Some? { ChainPrefix(list, p.parent.value, m - 1, n - 1); }
    }
  }

  /** Two of a long chain are the same. */
  lemma Repeats(list: Protos, c: Protos) returns (i: nat, j: nat)
    requires |c| > |list| && forall p :: p in c ==> p in list
    ensures i < j < |c| && c[i] == c[j]
  {
    if x, y :| 0 <= x < y < |c| && c[x] == c[y] {
      i, j := x, y;
    } else {
      DistinctSize(c);
      SetSize(list);
      var cs, ls := set p <- c, set p <- list;
      SubsetSize(cs, ls);
      assert false;
    }
  }

  lemma {:induction false} DistinctSize(c: Protos)
    requires forall x, y :: 0 <= x < y < |c| ==> c[x] != c[y]
    ensures |(set p <- c)| == |c|
  {
    if c != [] {
      var n := |c| - 1;
      DistinctSize(c[..n]);
      assert (set p <- c) == (set p <- c[..n]) + {c[n]};
    }
  }

  lemma {:induction false} SetSize(list: Protos)
    ensures |(set p <- list)| <= |list|
  {
    if list != [] {
      SetSize(list[1..]);
      assert (set p <- list) == (set p <- list[1..]) + {list[0]};
    }
  }

  lemma {:induction false} SubsetSize(a: set<Proto>, b: set<Proto>)
    requires a <= b
    ensures |a| <= |b|
  {
    if a != {} {
      var x :| x in a;
      SubsetSize(a - {x}, b - {x});
    }
  }

  /** However far one walks up, one meets nothing that `ChainOf` does not have. */
  lemma {:induction false} ChainCovers(list: Protos, name: string, n: nat, k: nat)
    requires k < |Chain(list, name, n)|
    ensures Chain(list, name, n)[k] in ChainOf(list, name)
    decreases k
  {
    var c, d := Chain(list, name, n), ChainOf(list, name);
    hide Chain;
    if n <= |list| {
      ChainPrefix(list, name, n, |list|);
    } else {
      ChainPrefix(list, name, |list|, n);
      if k < |d| {
        assert c[k] == d[k];
      } else {
        assert |c| > k >= |d| && |d| == |list|;
        var i, j := Repeats(list, c[..|list| + 1]);
        ChainSuffix(list, name, n, i);
        ChainSuffix(list, name, n, j);
        ChainPrefix(list, c[i].name, n - j, n - i);
        assert c[k] == c[j..][k - j] == c[i..][k - j];
        ChainCovers(list, name, n, k - (j - i));
      }
    }
  }

  /** Where a chain has ended, it has ended for good. */
  lemma EndsAt(list: Protos, name: string, n: nat)
    ensures |Chain(list, name, n)| < n ==> Ends(list, name)
    ensures Ends(list, name) && n >= |list| ==> Chain(list, name, n) == ChainOf(list, name)
  {
    var far := |list| + 1;
    ChainPrefix(list, name, |list|, far);
    if n <= far { ChainPrefix(list, name, n, far); } else { ChainPrefix(list, name, far, n); }
    if |Chain(list, name, n)| < n && !Ends(list, name) {
      assert n > far;
      NoEnd(list, name, n);
    }
  }

  /** A chain with more members than there are prototypes never ends. */
  lemma {:induction false} NoEnd(list: Protos, name: string, n: nat)
    requires !Ends(list, name) && n > |list|
    ensures |Chain(list, name, n)| == n
  {
    hide Chain;
    var far := |list| + 1;
    if n > far {
      NoEnd(list, name, n - 1);
      var c := Chain(list, name, n - 1);
      var i, j := Repeats(list, c[..far]);
      ChainSuffix(list, name, n - 1, i);
      ChainSuffix(list, name, n - 1, j);
      ChainPrefix(list, c[i].name, n - 1 - j, n - 1 - i);
      ChainPrefix(list, name, n - 1, n);
      var d := Chain(list, name, n);
      assert d[i] == c[i] && d[j] == c[j];
      ChainSuffix(list, name, n, i);
      ChainSuffix(list, name, n, j);
      assert |Chain(list, c[i].name, n - 1 - i)| == n - 1 - i;
      ChainPrefix(list, c[i].name, n - j, n - 1 - i);
      assert |d[j..]| == n - j;
    }
  }

  /** A chain with an end is its first prototype and the chain of the parent, which has an end too. */
  lemma EndsStep(list: Protos, name: string)
    requires Ends(list, name) && Find(list, name).Some?
    ensures var p := Find(list, name).value;
            ChainOf(list, name) == [p] + (if p.parent.None? then [] else ChainOf(list, p.parent.value)) &&
            (p.parent.Some? ==> Ends(list, p.parent.value))
  {
    hide Chain;
    hide Find;
    var n, p, far := |list|, Find(list, name).value, Chain(list, name, |list| + 1);
    assert |far| <= n;
    ChainIs(list, name, n + 1);
    EndsAt(list, name, n + 1);
    hide Ends;
    if p.parent.Some? {
      var up := Chain(list, p.parent.value, n);
      assert far == [p] + up && |up| < n;
      EndsAt(list, p.parent.value, n);
    }
  }

  /** The chain of a parent is further up in the child's. */
  lemma ChainJoin(list: Protos, name: string, n: nat, k: nat, l: nat)
    requires k < |Chain(list, name, n)| && Chain(list, name, n)[k].parent.Some?
    requires l < |Chain(list, Chain(list, name, n)[k].parent.value, n)|
    ensures var far := Chain(list, name, 2 * n + 1);
            k + 1 + l < |far| && far[k + 1 + l] == Chain(list, Chain(list, name, n)[k].parent.value, n)[l]
  {
    hide *;
    var c, far := Chain(list, name, n), Chain(list, name, 2 * n + 1);
    var b := c[k].parent.value;
    ChainPrefix(list, name, n, 2 * n + 1);
    assert far[k] == c[k];
    ChainAbove(list, name, 2 * n + 1, k);
    ChainPrefix(list, b, n, 2 * n - k);
    assert far[k + 1..] == Chain(list, b, 2 * n - k);
    assert far[k + 1..][l] == far[k + 1 + l];
  }

  /** What is above a parent is above the child. */
  lemma AboveParent(list: Protos, name: string, k: nat, q: Proto)
    requires var c := ChainOf(list, name); k < |c| && c[k].parent.Some? && q in ChainOf(list, c[k].parent.value)
    ensures q in ChainOf(list, name)
  {
    hide Chain;
    var up := ChainOf(list, ChainOf(list, name)[k].parent.value);
    var l :| 0 <= l < |up| && up[l] == q;
    ChainJoin(list, name, |list|, k, l);
    ChainCovers(list, name, 2 * |list| + 1, k + 1 + l);
  }

  /** Being above is transitive, on cycles too. */
  lemma SubtypeTransitive(list: Protos, a: string, b: string, c: string)
    requires Subtype(list, a, b) && Subtype(list, b, c)
    ensures Subtype(list, a, c)
  {
    hide ChainOf;
    if a != b && b != c {
      var chain := ChainOf(list, a);
      var p :| p in chain && p.parent == Some(b);
      var k :| 0 <= k < |chain| && chain[k] == p;
      var q :| q in ChainOf(list, b) && q.parent == Some(c);
      AboveParent(list, a, k, q);
    }
  }

  lemma OverridesTransitive(list: Protos, a: Method, b: Method, c: Method)
    requires Overrides(list, a, b) && Overrides(list, b, c)
    ensures Overrides(list, a, c)
  {
    hide Subtype;
    if a.ret != b.ret && b.ret != c.ret { SubtypeTransitive(list, c.ret, b.ret, a.ret); }
  }

  // ----- overrides -----

  /** Every method may stand for every method of that name further up, however far, although the checks
      compare it with the nearest one only. */
  lemma {:induction false} OverrideSound(list: Protos, name: string, n: nat, k: nat, m: Method, base: Method)
    requires Accepts(list) && 0 < k < |Chain(list, name, n)|
    requires m in Chain(list, name, n)[0].methods && base in Chain(list, name, n)[k].methods && m.name == base.name
    ensures Overrides(list, base, m)
    decreases k
  {
    hide *;
    var c := Chain(list, name, n);
    var p := c[0];
    ChainParts(list, name, n);
    var up := c[1..];
    var j := NearestMethod(up, k - 1, base);
    var near := MethodIn(up, m.name).value;
    MethodStable(list, p.parent.value, n - 1, m.name);
    NearIsOverridden(list, p, m);
    if j == k - 1 {
      SameMethod(list, up[j], near, base);
    } else {
      var at := up[j].name;
      ChainSuffix(list, name, n, j + 1);
      var d := Chain(list, at, n - j - 1);
      assert d == c[j + 1..] && d[0] == up[j] && d[k - 1 - j] == c[k];
      OverrideSound(list, at, n - j - 1, k - 1 - j, near, base);
      OverridesTransitive(list, base, near, m);
    }
  }

  lemma ChainParts(list: Protos, name: string, n: nat)
    requires |Chain(list, name, n)| > 1
    ensures var c := Chain(list, name, n);
            c[0] in list && c[0].parent.Some? && n > 0 && c[1..] == Chain(list, c[0].parent.value, n - 1)
    ensures forall p :: p in Chain(list, name, n) ==> p in list
  {
  }

  lemma NearIsOverridden(list: Protos, p: Proto, m: Method)
    requires Accepts(list) && p in list && p.parent.Some? && m in p.methods
    requires MethodIn(ChainOf(list, p.parent.value), m.name).Some?
    ensures Overrides(list, MethodIn(ChainOf(list, p.parent.value), m.name).value, m)
  {
    hide Overrides;
    assert AcceptsOne(list, p);
  }

  lemma SameMethod(list: Protos, p: Proto, a: Method, b: Method)
    requires Accepts(list) && p in list && a in p.methods && b in p.methods && a.name == b.name
    ensures a == b
  {
    hide AcceptsOne;
    assert UniqueNames(p);
  }

  lemma {:induction false} NearestMethod(chain: Protos, k: nat, base: Method) returns (j: nat)
    requires k < |chain| && base in chain[k].methods
    ensures j <= k && MethodIn(chain, base.name).Some? && MethodIn(chain, base.name).value in chain[j].methods
    ensures MethodIn(chain, base.name).value.name == base.name
  {
    j := 0;
    if OwnMethod(chain[0].methods, base.name).None? {
      j := NearestMethod(chain[1..], k - 1, base);
      j := j + 1;
    }
  }

  /** A method that a walk finds is the nearest one of `ChainOf`, however far the walk may go. */
  lemma MethodStable(list: Protos, name: string, n: nat, m: string)
    ensures MethodIn(Chain(list, name, n), m).Some? ==>
              MethodIn(ChainOf(list, name), m) == MethodIn(Chain(list, name, n), m)
    ensures n >= |list| ==> MethodIn(Chain(list, name, n), m) == MethodIn(ChainOf(list, name), m)
  {
    var c, d := Chain(list, name, n), ChainOf(list, name);
    MethodNone(c, m);
    MethodNone(d, m);
    if n <= |list| {
      ChainPrefix(list, name, n, |list|);
      MethodPrefix(d, |c|, m);
    } else {
      ChainPrefix(list, name, |list|, n);
      MethodPrefix(c, |d|, m);
      if MethodIn(d, m).None? {
        forall p | p in c
          ensures OwnMethod(p.methods, m).None?
        {
          var k :| 0 <= k < |c| && c[k] == p;
          ChainCovers(list, name, n, k);
        }
      }
    }
  }

  lemma {:induction false} MethodNone(chain: Protos, m: string)
    ensures MethodIn(chain, m).None? <==> forall p :: p in chain ==> OwnMethod(p.methods, m).None?
  {
    if chain != [] { MethodNone(chain[1..], m); }
  }

  lemma {:induction false} MethodPrefix(chain: Protos, k: nat, m: string)
    requires k <= |chain|
    ensures MethodIn(chain[..k], m).Some? ==> MethodIn(chain, m) == MethodIn(chain[..k], m)
  {
    if k > 0 {
      assert chain[..k][1..] == chain[1..][..k - 1];
      MethodPrefix(chain[1..], k - 1, m);
    }
  }

  // ----- fields -----

  function FieldsOf(chain: Protos): seq<Field> {
    if chain == [] then [] else FieldsOf(chain[1..]) + chain[0].fields
  }

  /** `collectProtoFields`: from the root of the chain down. */
  function CollectFields(list: Protos, name: string): seq<Field> {
    FieldsOf(ChainOf(list, name))
  }

  ghost predicate DistinctFields(fs: seq<Field>) {
    forall i, j :: 0 <= i < j < |fs| ==> fs[i].name != fs[j].name
  }

  lemma {:induction false} FieldOfChain(chain: Protos, f: Field)
    requires f in FieldsOf(chain)
    ensures FieldIn(chain, f.name)
  {
    if f in chain[0].fields {
      assert HasField(chain[0].fields, f.name);
    } else {
      FieldOfChain(chain[1..], f);
      var p :| p in chain[1..] && HasField(p.fields, f.name);
      assert p in chain;
    }
  }

  /** A parent's fields come first in each child, and all names are different. */
  lemma {:induction false} FieldsExtend(list: Protos, p: Proto)
    requires Accepts(list) && p in list && Ends(list, p.name)
    ensures DistinctFields(CollectFields(list, p.name))
    ensures p.parent.Some? ==> CollectFields(list, p.name) == CollectFields(list, p.parent.value) + p.fields
    ensures p.parent.None? ==> CollectFields(list, p.name) == p.fields
    decreases |ChainOf(list, p.name)|
  {
    hide Overrides;
    hide Ends;
    FindMember(list, p);
    assert UniqueNames(p) && AcceptsOne(list, p);
    EndsStep(list, p.name);
    var c := ChainOf(list, p.name);
    hide ChainOf;
    if p.parent.Some? {
      var parent := Find(list, p.parent.value).value;
      ChainIs(list, p.parent.value, 1);
      FieldsExtend(list, parent);
      var up := ChainOf(list, p.parent.value);
      assert c[1..] == up && c[0] == p;
      var before, all := FieldsOf(up), FieldsOf(c);
      forall i, j | 0 <= i < j < |all|
        ensures all[i].name != all[j].name
      {
        if i < |before| <= j {
          FieldOfChain(up, all[i]);
          assert all[j] in p.fields && !FieldIn(up, all[j].name);
        }
      }
    } else {
      assert c[1..] == [] && FieldsOf([]) == [];
    }
  }

  // ----- the layout that the emitted assertions compare -----

  /** Sizes and alignments of field types; of two alignments one divides the other. */
  datatype Target = Target(size: string -> nat, align: string -> nat)

  ghost predicate Sane(t: Target) {
    (forall ty :: t.align(ty) > 0) && forall a, b :: t.align(a) % t.align(b) == 0 || t.align(b) % t.align(a) == 0
  }

  function RoundUp(n: nat, a: nat): (r: nat)
    requires a > 0
    ensures n <= r < n + a
  {
    if n % a == 0 then n else n + (a - n % a)
  }

  /** Where the fields end, and the alignment of the whole. */
  function EndOf(t: Target, fs: seq<Field>): nat
    requires forall ty :: t.align(ty) > 0
  {
    if fs == [] then 0
    else
      var f := fs[|fs| - 1];
      RoundUp(EndOf(t, fs[..|fs| - 1]), t.align(f.ty)) + t.size(f.ty)
  }

  function AlignOf(t: Target, fs: seq<Field>): (a: nat)
    requires forall ty :: t.align(ty) > 0
    ensures a > 0
  {
    if fs == [] then 1
    else
      var a, b := AlignOf(t, fs[..|fs| - 1]), t.align(fs[|fs| - 1].ty);
      if a < b then b else a
  }

  function OffsetOf(t: Target, fs: seq<Field>, k: nat): nat
    requires (forall ty :: t.align(ty) > 0) && k < |fs|
  {
    RoundUp(EndOf(t, fs[..k]), t.align(fs[k].ty))
  }

  function SizeOf(t: Target, fs: seq<Field>): nat
    requires forall ty :: t.align(ty) > 0
  {
    RoundUp(EndOf(t, fs), AlignOf(t, fs))
  }

  lemma RoundUpIs(n: nat, a: nat)
    requires a > 0
    ensures RoundUp(n, a) == (if n % a == 0 then n / a else n / a + 1) * a && RoundUp(n, a) % a == 0
  {
    DivIs(n, a);
    var q := if n % a == 0 then n / a else n / a + 1;
    assert (n / a + 1) * a == (n / a) * a + a;
    DivExact(q, a);
  }

  /** The least multiple. */
  lemma RoundUpLeast(n: nat, a: nat, m: nat)
    requires a > 0 && m >= n && m % a == 0
    ensures RoundUp(n, a) <= m
  {
    RoundUpIs(n, a);
    DivIs(n, a);
    DivIs(m, a);
    DivGrows(n, m, a);
    var p, q := n / a, m / a;
    if n % a != 0 {
      FactorLess(p, q, a);
      MulMono(p + 1, q, a);
    }
  }

  lemma FactorLess(p: nat, q: nat, a: nat)
    requires p * a < q * a
    ensures p < q
  {
    assert (q - p) * a > 0;
  }

  lemma DivGrows(n: nat, m: nat, a: nat)
    requires a > 0 && n <= m
    ensures n / a <= m / a
  {
    DivIs(n, a);
    DivIs(m, a);
    var p, q := n / a, m / a;
    assert (p - q) * a <= m % a by { assert (p - q) * a == p * a - q * a; }
    if p - q >= 1 { MulMono(1, p - q, a); }
  }

  predicate Divides(a: nat, b: nat)
    requires a > 0
  {
    b % a == 0
  }

  lemma DividesTransitive(a: nat, b: nat, c: nat)
    requires a > 0 && b > 0 && Divides(a, b) && Divides(b, c)
    ensures Divides(a, c)
  {
    DivIs(b, a);
    DivIs(c, b);
    assert c == (c / b * (b / a)) * a by { assert c == c / b * (b / a * a); }
    DivExact(c / b * (b / a), a);
  }

  /** The alignment of a struct is 1 or that of one of its fields. */
  lemma {:induction false} AlignIs(t: Target, fs: seq<Field>)
    requires Sane(t)
    ensures AlignOf(t, fs) == 1 || exists ty :: AlignOf(t, fs) == t.align(ty)
  {
    if fs != [] { AlignIs(t, fs[..|fs| - 1]); }
  }

  lemma AlignGrows(t: Target, fs: seq<Field>, f: Field)
    requires Sane(t)
    ensures Divides(AlignOf(t, fs), AlignOf(t, fs + [f]))
  {
    var a, b := AlignOf(t, fs), t.align(f.ty);
    assert (fs + [f])[..|fs|] == fs;
    AlignIs(t, fs);
    DivExact(1, a);
    if a < b {
      DivUnique(a, b, 0, a);
      if a == 1 { DivExact(b, 1); }
    }
  }

  /** More fields at the end: more room, and an alignment that the old one divides. */
  lemma {:induction false} Appended(t: Target, fs: seq<Field>, own: seq<Field>)
    requires Sane(t)
    ensures EndOf(t, fs) <= EndOf(t, fs + own) && Divides(AlignOf(t, fs), AlignOf(t, fs + own))
    decreases |own|
  {
    if own == [] {
      assert fs + own == fs;
      DivExact(1, AlignOf(t, fs));
    } else {
      var n := |own| - 1;
      var front, f := fs + own[..n], own[n];
      Appended(t, fs, own[..n]);
      assert fs + own == front + [f] && (front + [f])[..|front|] == front;
      AlignGrows(t, front, f);
      DividesTransitive(AlignOf(t, fs), AlignOf(t, front), AlignOf(t, front + [f]));
    }
  }

  /** The alignment of a struct is a multiple of that of each field. */
  lemma FieldAligned(t: Target, fs: seq<Field>, k: nat)
    requires Sane(t) && k < |fs|
    ensures Divides(t.align(fs[k].ty), AlignOf(t, fs))
  {
    var front, b := fs[..k + 1], t.align(fs[k].ty);
    var a := AlignOf(t, fs[..k]);
    assert front[..k] == fs[..k] && front[k] == fs[k];
    AlignIs(t, fs[..k]);
    DivExact(1, b);
    if b < a { DivUnique(b, a, 0, b); }
    assert Divides(b, AlignOf(t, front));
    Appended(t, front, fs[k + 1..]);
    assert front + fs[k + 1..] == fs;
    hide Divides;
    hide AlignOf;
    DividesTransitive(b, AlignOf(t, front), AlignOf(t, fs));
  }

  /** What C asks of a layout: fields in order without overlap, each aligned, the first at 0, and structs that
      may stand side by side. */
  lemma LayoutIsLegal(t: Target, fs: seq<Field>, k: nat)
    requires Sane(t) && k < |fs|
    ensures var at, room := OffsetOf(t, fs, k), t.size(fs[k].ty);
            at % t.align(fs[k].ty) == 0 && (k == 0 ==> at == 0) &&
            at + room <= if k + 1 < |fs| then OffsetOf(t, fs, k + 1) else SizeOf(t, fs)
    ensures SizeOf(t, fs) % AlignOf(t, fs) == 0 && AlignOf(t, fs) % t.align(fs[k].ty) == 0
  {
    RoundUpIs(EndOf(t, fs[..k]), t.align(fs[k].ty));
    RoundUpIs(EndOf(t, fs), AlignOf(t, fs));
    FieldAligned(t, fs, k);
    assert fs[..k + 1][..k] == fs[..k] && fs[..|fs|] == fs;
    hide RoundUp;
  }

  /** Every assertion that `emitProtoLayoutAsserts` writes for a parent and a child holds: the child
      is at least as large, and the parent's fields are at the same offsets. */
  lemma LayoutAssertsHold(list: Protos, p: Proto, t: Target)
    requires Accepts(list) && p in list && p.parent.Some? && Ends(list, p.name) && Sane(t)
    ensures var parent, child := CollectFields(list, p.parent.value), CollectFields(list, p.name);
            SizeOf(t, parent) <= SizeOf(t, child) &&
            forall k :: 0 <= k < |parent| ==>
                          k < |child| && child[k] == parent[k] && OffsetOf(t, child, k) == OffsetOf(t, parent, k)
  {
    FieldsExtend(list, p);
    var parent, child := CollectFields(list, p.parent.value), CollectFields(list, p.name);
    hide CollectFields;
    hide Accepts;
    assert child == parent + p.fields;
    forall k | 0 <= k < |parent|
      ensures child[k] == parent[k] && OffsetOf(t, child, k) == OffsetOf(t, parent, k)
    {
      assert child[..k] == parent[..k];
    }
    Appended(t, parent, p.fields);
    var n, a, m, b := EndOf(t, parent), AlignOf(t, parent), EndOf(t, child), AlignOf(t, child);
    RoundUpIs(m, b);
    DividesTransitive(a, b, RoundUp(m, b));
    RoundUpLeast(n, a, RoundUp(m, b));
  }

  // ----- the frontend's own collection stops after 64 levels -----

  const LEVELS := 64

  /** `proto_collect_fields` of `c/frontend.c`. */
  function CollectFieldsC(list: Protos, name: string): seq<Field> {
    FieldsOf(Chain(list, name, LEVELS))
  }

  lemma {:induction false} FieldsOfSplit(chain: Protos, k: nat)
    requires k <= |chain|
    ensures FieldsOf(chain) == FieldsOf(chain[k..]) + FieldsOf(chain[..k])
  {
    if k > 0 {
      FieldsOfSplit(chain[1..], k - 1);
      assert chain[1..][k - 1..] == chain[k..] && chain[1..][..k - 1] == chain[..k][1..] && chain[..k][0] == chain[0];
    } else {
      assert chain[0..] == chain && FieldsOf(chain) + [] == FieldsOf(chain);
    }
  }

  /** It collects what the backend collects exactly when nothing is declared above the 64th level. */
  lemma CollectionsAgree(list: Protos, name: string)
    requires Ends(list, name)
    ensures var chain := ChainOf(list, name);
            CollectFieldsC(list, name) == CollectFields(list, name) <==>
            |chain| <= 64 || FieldsOf(chain[64..]) == []
  {
    var chain := ChainOf(list, name);
    if |list| < LEVELS {
      EndsAt(list, name, LEVELS);
    } else {
      ChainPrefix(list, name, LEVELS, |list|);
    }
    if |chain| <= LEVELS {
      assert chain[..|chain|] == chain == Chain(list, name, LEVELS);
    } else {
      assert Chain(list, name, LEVELS) == chain[..LEVELS];
      assert FieldsOf(chain) == CollectFields(list, name);
      FieldsOfSplit(chain, LEVELS);
      assert |FieldsOf(chain)| == |FieldsOf(chain[LEVELS..])| + |FieldsOf(chain[..LEVELS])|;
      if FieldsOf(chain[LEVELS..]) == [] { assert [] + FieldsOf(chain[..LEVELS]) == FieldsOf(chain[..LEVELS]); }
    }
  }

  // ----- what a walk answers -----

  /** `Going`: the walk is still on its way. */
  datatype Answer<+T> = Said(value: T) | Going

  /** With one step for each prototype, `r` is the answer; with fewer, a walk may not be through.  An
      `answer` of `Going` is then one that never comes. */
  predicate Settles<T(==)>(r: Answer<T>, answer: Answer<T>, list: Protos, steps: nat) {
    r == answer || (r.Going? && steps < |list|)
  }

  function FieldAnswer(list: Protos, name: string, field: string): Answer<bool> {
    if FieldIn(ChainOf(list, name), field) then Said(true) else if Ends(list, name) then Said(false) else Going
  }

  function MethodAnswer(list: Protos, name: string, m: string): Answer<Option<Method>> {
    var r := MethodIn(ChainOf(list, name), m);
    if r.Some? || Ends(list, name) then Said(r) else Going
  }

  function SubtypeAnswer(list: Protos, child: string, parent: string): Answer<bool> {
    if Subtype(list, child, parent) then Said(true) else if Ends(list, child) then Said(false) else Going
  }

  function CollectionAnswer(list: Protos, name: string): Answer<seq<Field>> {
    if Ends(list, name) then Said(CollectFields(list, name)) else Going
  }

  function OverrideAnswer(list: Protos, base: Method, m: Method): Answer<bool> {
    if (!base.isInternal && m.isInternal) || !SameSignature(base, m) then Said(false)
    else if base.ret == m.ret then Said(true)
    else SubtypeAnswer(list, m.ret, base.ret)
  }

  /** The fields in order, up to the first that is already there. */
  function FieldsAnswer(list: Protos, name: string, fs: seq<Field>): Answer<bool> {
    if fs == [] then Said(true)
    else
      match FieldAnswer(list, name, fs[0].name)
      case Going => Going
      case Said(found) => if found then Said(false) else FieldsAnswer(list, name, fs[1..])
  }

  /** The methods in order, up to the first that overrides another one wrongly. */
  function MethodsAnswer(list: Protos, name: string, ms: seq<Method>): Answer<bool> {
    if ms == [] then Said(true)
    else
      match MethodAnswer(list, name, ms[0].name)
      case Going => Going
      case Said(base) =>
        var good := if base.None? then Said(true) else OverrideAnswer(list, base.value, ms[0]);
        if good == Said(true) then MethodsAnswer(list, name, ms[1..]) else good
  }

  function Both(a: Answer<bool>, b: Answer<bool>): Answer<bool> {
    if a.Going? || b.Going? then Going else Said(a.value && b.value)
  }

  function OneAnswer(list: Protos, p: Proto): Answer<bool> {
    if p.parent.None? then Said(true)
    else
      match Find(list, p.parent.value)
      case None => Said(false)
      case Some(parent) =>
        if parent.sealed then Said(false)
        else Both(FieldsAnswer(list, p.parent.value, p.fields), MethodsAnswer(list, p.parent.value, p.methods))
  }

  /** Errors are noted, and the loop goes on. */
  function ListAnswer(list: Protos, ps: Protos): Answer<bool> {
    if ps == [] then Said(true) else Both(OneAnswer(list, ps[0]), ListAnswer(list, ps[1..]))
  }

  /** `collect_prototypes`: the list grows at its front, and is checked in the end. */
  function CollectAnswer(decls: seq<Proto>, list: Protos): Answer<bool>
    decreases |decls|
  {
    if decls == [] then ListAnswer(list, list)
    else if Find(list, decls[0].name).Some? || !UniqueNames(decls[0]) then Said(false)
    else CollectAnswer(decls[1..], [decls[0]] + list)
  }

  // ----- which hierarchies are accepted -----

  /** No walk of the checks on `p` goes round and round: on or below a cycle, `p` declares no field, and
      no method that is not above it already. */
  predicate Quiet(list: Protos, p: Proto) {
    p.parent.Some? && !Ends(list, p.parent.value) ==>
      p.fields == [] && forall m :: m in p.methods ==> MethodIn(ChainOf(list, p.parent.value), m.name).Some?
  }

  lemma {:induction false} FieldsSaid(list: Protos, name: string, fs: seq<Field>)
    ensures FieldsAnswer(list, name, fs) == Said(true) <==>
            (forall f :: f in fs ==> !FieldIn(ChainOf(list, name), f.name)) && (fs == [] || Ends(list, name))
  {
    hide FieldIn;
    hide Ends;
    if fs != [] { FieldsSaid(list, name, fs[1..]); }
  }

  lemma {:induction false} MethodsSaid(list: Protos, name: string, ms: seq<Method>)
    ensures MethodsAnswer(list, name, ms) == Said(true) <==>
            forall m :: m in ms ==>
                          match MethodIn(ChainOf(list, name), m.name)
                          case None => Ends(list, name)
                          case Some(base) => Overrides(list, base, m)
  {
    hide Ends;
    hide Subtype;
    if ms != [] { MethodsSaid(list, name, ms[1..]); }
  }

  lemma OneSaid(list: Protos, p: Proto)
    ensures OneAnswer(list, p) == Said(true) <==> AcceptsOne(list, p) && Quiet(list, p)
  {
    hide Ends;
    hide Overrides;
    hide FieldIn;
    if p.parent.Some? {
      FieldsSaid(list, p.parent.value, p.fields);
      MethodsSaid(list, p.parent.value, p.methods);
      if p.fields != [] { assert p.fields[0] in p.fields; }
    }
  }

  lemma {:induction false} ListSaid(list: Protos, ps: Protos)
    ensures ListAnswer(list, ps) == Said(true) <==> forall p :: p in ps ==> AcceptsOne(list, p) && Quiet(list, p)
  {
    hide OneAnswer;
    hide AcceptsOne;
    hide Quiet;
    if ps != [] {
      OneSaid(list, ps[0]);
      ListSaid(list, ps[1..]);
    }
  }

  /** For all declarations, cyclic ones included: they are accepted if and only if names are unique, parents
      known and not sealed, fields new, overrides of the nearest method valid, and no walk runs into a cycle. */
  lemma {:induction false} AcceptedIff(decls: seq<Proto>, list: Protos)
    requires DistinctProtos(list) && forall p :: p in list ==> UniqueNames(p)
    ensures var all := Collected(decls, list);
            CollectAnswer(decls, list) == Said(true) <==> Accepts(all) && forall p :: p in all ==> Quiet(all, p)
    decreases |decls|
  {
    hide AcceptsOne;
    hide Quiet;
    hide ListAnswer;
    if decls == [] {
      ListSaid(list, list);
    } else if Find(list, decls[0].name).Some? || !UniqueNames(decls[0]) {
      RepeatRejected(decls, list);
    } else {
      AcceptedIff(decls[1..], [decls[0]] + list);
    }
  }

  /** Without cycles every check comes to an end, and the answer is whether the hierarchy is sound. */
  lemma EndingDecides(decls: seq<Proto>, list: Protos)
    requires DistinctProtos(list) && forall p :: p in list ==> UniqueNames(p)
    requires var all := Collected(decls, list); forall p :: p in all ==> Ends(all, p.name)
    ensures CollectAnswer(decls, list) == Said(Accepts(Collected(decls, list)))
  {
    var all := Collected(decls, list);
    AcceptedIff(decls, list);
    forall name: string
      ensures Ends(all, name)
    {
      if Find(all, name).Some? { assert Find(all, name).value in all; }
    }
    hide Ends;
    hide AcceptsOne;
    CollectSaid(decls, list);
  }

  lemma {:induction false} CollectSaid(decls: seq<Proto>, list: Protos)
    requires forall name: string :: Ends(Collected(decls, list), name)
    ensures CollectAnswer(decls, list).Said?
    decreases |decls|
  {
    hide OneAnswer;
    hide Ends;
    hide ListAnswer;
    if decls == [] {
      assert Collected(decls, list) == list;
      ListEnds(list, list);
    } else if !(Find(list, decls[0].name).Some? || !UniqueNames(decls[0])) {
      assert Collected(decls[1..], [decls[0]] + list) == Collected(decls, list);
      CollectSaid(decls[1..], [decls[0]] + list);
    }
  }

  lemma {:induction false} ListEnds(list: Protos, ps: Protos)
    requires forall name: string :: Ends(list, name)
    ensures ListAnswer(list, ps).Said?
  {
    hide Ends;
    if ps != [] {
      var p := ps[0];
      if p.parent.Some? {
        FieldsEnd(list, p.parent.value, p.fields);
        MethodsEnd(list, p.parent.value, p.methods);
      }
      ListEnds(list, ps[1..]);
    }
  }

  lemma {:induction false} FieldsEnd(list: Protos, name: string, fs: seq<Field>)
    requires Ends(list, name)
    ensures FieldsAnswer(list, name, fs).Said?
  {
    if fs != [] { FieldsEnd(list, name, fs[1..]); }
  }

  lemma {:induction false} MethodsEnd(list: Protos, name: string, ms: seq<Method>)
    requires forall x: string :: Ends(list, x)
    ensures MethodsAnswer(list, name, ms).Said?
  {
    hide Ends;
    hide Subtype;
    if ms != [] { MethodsEnd(list, name, ms[1..]); }
  }

  const CYCLE: Protos := [Proto("B", Some("A"), false, [], []), Proto("A", Some("B"), false, [], [])]

  lemma CycleFinds()
    ensures Find(CYCLE, "A") == Some(CYCLE[1]) && Find(CYCLE, "B") == Some(CYCLE[0])
    ensures Find(CYCLE[1..], "B") == None
  {
    assert CYCLE[1..] == [CYCLE[1]] && CYCLE[1..][1..] == [];
    assert Find(CYCLE[1..], "A") == Some(CYCLE[1]);
  }

  lemma CycleGoes()
    ensures |Chain(CYCLE, "A", 3)| == 3
  {
    CycleFinds();
    ChainIs(CYCLE, "A", 3);
    ChainIs(CYCLE, "B", 2);
    ChainIs(CYCLE, "A", 1);
    ChainIs(CYCLE, "B", 0);
  }

  lemma CycleQuiet()
    ensures DistinctProtos(CYCLE)
    ensures forall p :: p in CYCLE ==> UniqueNames(p) && AcceptsOne(CYCLE, p) && Quiet(CYCLE, p)
  {
    CycleFinds();
    hide Chain;
    forall p | p in CYCLE
      ensures UniqueNames(p) && AcceptsOne(CYCLE, p) && Quiet(CYCLE, p)
    {
      assert p == CYCLE[0] || p == CYCLE[1];
    }
  }

  /** Two prototypes that extend each other are accepted, and collecting their fields never ends. */
  lemma CycleAccepted()
    ensures CollectAnswer([CYCLE[1], CYCLE[0]], []) == Said(true) && CollectionAnswer(CYCLE, "A") == Going
  {
    CycleFinds();
    CycleGoes();
    var a, b := CYCLE[1], CYCLE[0];
    assert !Ends(CYCLE, "A");
    assert [a, b][1..] == [b] && [b][1..] == [] && [a] + [] == [a] && [b] + [a] == CYCLE;
    assert Collected([a, b], []) == Collected([b], [a]) == Collected([], CYCLE) == CYCLE;
    assert UniqueNames(a) && UniqueNames(b);
    CycleQuiet();
    hide *;
    AcceptedIff([a, b], []);
  }

  // ----- the loops -----

  function Above(list: Protos, p: Proto): Option<Proto> {
    if p.parent.None? then None else Find(list, p.parent.value)
  }

  /** A walk up from `name` has passed `i` prototypes and stands at `cur`. */
  ghost predicate Reached(list: Protos, name: string, i: nat, cur: Option<Proto>) {
    |Chain(list, name, i)| == i &&
    Chain(list, name, i + 1) == Chain(list, name, i) + (if cur.Some? then [cur.value] else [])
  }

  lemma StartsAt(list: Protos, name: string)
    ensures Reached(list, name, 0, Find(list, name))
  {
    ChainIs(list, name, 0);
    ChainIs(list, name, 1);
    if Find(list, name).Some? &&
       Find(list, name).value.parent.Some? { ChainIs(list, Find(list, name).value.parent.value, 0); }
  }

  lemma ReachedNext(list: Protos, name: string, i: nat, cur: Option<Proto>)
    requires Reached(list, name, i, cur) && cur.Some?
    ensures Reached(list, name, i + 1, Above(list, cur.value))
    ensures Chain(list, name, i + 1) == Chain(list, name, i) + [cur.value] && cur.value in ChainOf(list, name)
  {
    hide Chain;
    hide Find;
    var c, far := Chain(list, name, i + 1), Chain(list, name, i + 2);
    assert c[i] == cur.value;
    ChainCovers(list, name, i + 1, i);
    ChainPrefix(list, name, i + 1, i + 2);
    assert far[i] == cur.value;
    ChainAbove(list, name, i + 2, i);
    assert far == far[..i + 1] + far[i + 1..];
    if cur.value.parent.Some? {
      var up := cur.value.parent.value;
      ChainIs(list, up, 1);
      if Find(list, up).Some? &&
         Find(list, up).value.parent.Some? { ChainIs(list, Find(list, up).value.parent.value, 0); }
    }
  }

  lemma ReachedEnd(list: Protos, name: string, i: nat)
    requires Reached(list, name, i, None)
    ensures Ends(list, name) && Chain(list, name, i) == ChainOf(list, name)
  {
    hide Chain;
    EndsAt(list, name, i + 1);
    ChainPrefix(list, name, i, i + 1);
    if i + 1 < |list| { ChainPrefix(list, name, i + 1, |list|); }
  }

  /** After as many steps as there are prototypes, the walk is on a cycle and has seen everything. */
  lemma ReachedFar(list: Protos, name: string, i: nat, cur: Option<Proto>)
    requires Reached(list, name, i, cur) && cur.Some? && i >= |list|
    ensures !Ends(list, name) && forall p :: p in ChainOf(list, name) ==> p in Chain(list, name, i)
  {
    hide Chain;
    EndsAt(list, name, i + 1);
    ChainPrefix(list, name, |list|, i);
  }

  /** `collectProtoFields`. */
  method CollectProtoFields(list: Protos, name: string, steps: nat) returns (r: Answer<seq<Field>>)
    ensures Settles(r, CollectionAnswer(list, name), list, steps)
  {
    StartsAt(list, name);
    hide Chain;
    hide Find;
    hide ChainOf;
    hide Ends;
    var chain: Protos := [];
    var cur := Find(list, name);
    while cur.Some? && |chain| < steps
      invariant |chain| <= steps && chain == Chain(list, name, |chain|) && Reached(list, name, |chain|, cur)
    {
      ReachedNext(list, name, |chain|, cur);
      chain := chain + [cur.value];
      cur := Above(list, cur.value);
    }
    if cur.Some? {
      if |chain| >= |list| { ReachedFar(list, name, |chain|, cur); }
      return Going;
    }
    ReachedEnd(list, name, |chain|);
    var out := [];
    var i: nat := |chain|;
    assert chain[i..] == [];
    while i > 0
      invariant i <= |chain| && out == FieldsOf(chain[i..])
    {
      i := i - 1;
      assert chain[i..][1..] == chain[i + 1..] && chain[i..][0] == chain[i];
      out := out + chain[i].fields;
    }
    assert chain[0..] == chain;
    r := Said(out);
  }

  /** `proto_collect_fields`: the walk up stops when its array of 64 pointers is full. */
  method CollectFields64(list: Protos, name: string) returns (out: seq<Field>)
    ensures out == CollectFieldsC(list, name)
  {
    StartsAt(list, name);
    hide Chain;
    hide Find;
    hide ChainOf;
    hide Ends;
    var chain: Protos := [];
    var cur := Find(list, name);
    while cur.Some? && |chain| < LEVELS
      invariant |chain| <= LEVELS && chain == Chain(list, name, |chain|) && Reached(list, name, |chain|, cur)
      decreases LEVELS - |chain|
    {
      ReachedNext(list, name, |chain|, cur);
      chain := chain + [cur.value];
      cur := Above(list, cur.value);
    }
    if |chain| < LEVELS { ChainPrefix(list, name, |chain| + 1, LEVELS); }
    out := [];
    var i := 0;
    while i < |chain|
      invariant i <= |chain| && out == FieldsOf(chain[|chain| - i..])
    {
      var at := |chain| - 1 - i;
      assert chain[at..][1..] == chain[at + 1..] && chain[at..][0] == chain[at];
      out := out + chain[at].fields;
      i := i + 1;
    }
    assert chain[0..] == chain;
  }

  /** `proto_is_subtype`. */
  method IsSubtype(list: Protos, child: string, parent: string, steps: nat) returns (r: Answer<bool>)
    ensures Settles(r, SubtypeAnswer(list, child, parent), list, steps)
  {
    StartsAt(list, child);
    hide Chain;
    hide Find;
    hide ChainOf;
    hide Ends;
    if child == parent { return Said(true); }
    var cur, i := Find(list, child), 0;
    while cur.Some? && cur.value.parent.Some? && i < steps
      invariant i <= steps && Reached(list, child, i, cur) && !Below(Chain(list, child, i), parent)
    {
      ReachedNext(list, child, i, cur);
      if cur.value.parent.value == parent { return Said(true); }
      cur := Above(list, cur.value);
      i := i + 1;
    }
    if cur.Some? && cur.value.parent.Some? {
      if i >= |list| { ReachedFar(list, child, i, cur); }
      return Going;
    }
    if cur.Some? {
      ReachedNext(list, child, i, cur);
      i := i + 1;
    }
    ReachedEnd(list, child, i);
    r := Said(false);
  }

  predicate Below(chain: Protos, parent: string) {
    exists p :: p in chain && p.parent == Some(parent)
  }

  /** `proto_find_method_ex`, from the prototype up. */
  method FindMethod(list: Protos, name: string, m: string, steps: nat) returns (r: Answer<Option<Method>>)
    ensures Settles(r, MethodAnswer(list, name, m), list, steps)
  {
    StartsAt(list, name);
    hide Chain;
    hide Find;
    hide ChainOf;
    hide Ends;
    var cur, i := Find(list, name), 0;
    while cur.Some? && i < steps
      invariant i <= steps && Reached(list, name, i, cur) && MethodIn(Chain(list, name, i), m).None?
    {
      ReachedNext(list, name, i, cur);
      MethodLast(Chain(list, name, i), cur.value, m);
      MethodStable(list, name, i + 1, m);
      var own := OwnMethod(cur.value.methods, m);
      if own.Some? { return Said(own); }
      cur := Above(list, cur.value);
      i := i + 1;
    }
    if cur.Some? {
      if i >= |list| {
        ReachedFar(list, name, i, cur);
        MethodStable(list, name, i, m);
      }
      return Going;
    }
    ReachedEnd(list, name, i);
    r := Said(None);
  }

  lemma MethodLast(chain: Protos, p: Proto, m: string)
    requires MethodIn(chain, m).None?
    ensures MethodIn(chain + [p], m) == OwnMethod(p.methods, m)
  {
    MethodNone(chain, m);
    MethodAfter(chain, [p], m);
    assert [p][1..] == [];
  }

  lemma {:induction false} MethodAfter(front: Protos, chain: Protos, m: string)
    requires forall p :: p in front ==> OwnMethod(p.methods, m).None?
    ensures MethodIn(front + chain, m) == MethodIn(chain, m)
  {
    if front == [] {
      assert [] + chain == chain;
    } else {
      assert (front + chain)[1..] == front[1..] + chain;
      MethodAfter(front[1..], chain, m);
    }
  }

  /** `proto_find_field_ex`. */
  method FindField(list: Protos, name: string, field: string, steps: nat) returns (r: Answer<bool>)
    ensures Settles(r, FieldAnswer(list, name, field), list, steps)
  {
    StartsAt(list, name);
    hide Chain;
    hide Find;
    hide ChainOf;
    hide Ends;
    var cur, i := Find(list, name), 0;
    while cur.Some? && i < steps
      invariant i <= steps && Reached(list, name, i, cur) && !FieldIn(Chain(list, name, i), field)
    {
      ReachedNext(list, name, i, cur);
      if HasField(cur.value.fields, field) { return Said(true); }
      cur := Above(list, cur.value);
      i := i + 1;
    }
    if cur.Some? {
      if i >= |list| { ReachedFar(list, name, i, cur); }
      return Going;
    }
    ReachedEnd(list, name, i);
    r := Said(false);
  }

  /** The checks of `collect_prototypes` on the collected list: errors are noted, and the loops go on. */
  method CheckPrototypes(list: Protos, steps: nat) returns (r: Answer<bool>)
    ensures Settles(r, ListAnswer(list, list), list, steps)
  {
    hide OneAnswer;
    var hadError, i := false, 0;
    assert list[0..] == list;
    while i < |list|
      invariant i <= |list| && ListAnswer(list, list) == Both(Said(!hadError), ListAnswer(list, list[i..]))
    {
      var one := CheckOne(list, list[i], steps);
      assert list[i..][1..] == list[i + 1..] && list[i..][0] == list[i];
      if one.Going? { return Going; }
      if !one.value { hadError := true; }
      i := i + 1;
    }
    r := Said(!hadError);
  }

  /** The list grows at its front. */
  function Collected(decls: seq<Proto>, list: Protos): Protos
    decreases |decls|
  {
    if decls == [] then list else Collected(decls[1..], [decls[0]] + list)
  }

  lemma {:induction false} CollectedKeeps(decls: seq<Proto>, list: Protos) returns (front: Protos)
    ensures Collected(decls, list) == front + list
    decreases |decls|
  {
    if decls == [] {
      front := [];
    } else {
      front := CollectedKeeps(decls[1..], [decls[0]] + list);
      assert front + ([decls[0]] + list) == front + [decls[0]] + list;
      front := front + [decls[0]];
    }
  }

  ghost predicate DistinctProtos(list: Protos) {
    forall i, j :: 0 <= i < j < |list| ==> list[i].name != list[j].name
  }

  /** A prototype that repeats a name, its own or an earlier one, cannot be accepted later on. */
  lemma RepeatRejected(decls: seq<Proto>, list: Protos)
    requires decls != []
    requires !UniqueNames(decls[0]) || exists q :: q in list && q.name == decls[0].name
    ensures !Accepts(Collected(decls, list))
  {
    hide AcceptsOne;
    var front := CollectedKeeps(decls[1..], [decls[0]] + list);
    var all := front + ([decls[0]] + list);
    assert all[|front|] == decls[0];
    if UniqueNames(decls[0]) {
      var q :| q in list && q.name == decls[0].name;
      var j :| 0 <= j < |list| && list[j] == q;
      assert all[|front| + 1 + j] == q;
    }
  }

  /** `collect_prototypes`: the declarations are collected, then the list is checked.  Each walk may take
      `steps` steps. */
  method CollectPrototypes(decls: seq<Proto>, builtins: Protos, steps: nat) returns (r: Answer<bool>)
    ensures Settles(r, CollectAnswer(decls, builtins), Collected(decls, builtins), steps)
  {
    hide ListAnswer;
    var list, i := builtins, 0;
    assert decls[0..] == decls;
    while i < |decls|
      invariant i <= |decls| && Collected(decls[i..], list) == Collected(decls, builtins)
      invariant CollectAnswer(decls[i..], list) == CollectAnswer(decls, builtins)
    {
      var p := decls[i];
      ghost var rest := decls[i..];
      assert rest[0] == p && rest[1..] == decls[i + 1..];
      var repeats := RepeatsName(p);
      if Find(list, p.name).Some? || repeats { return Said(false); }
      list := [p] + list;
      i := i + 1;
    }
    r := CheckPrototypes(list, steps);
  }

  method RepeatsName(p: Proto) returns (found: bool)
    ensures found <==> !UniqueNames(p)
  {
    var i := 0;
    while i < |p.fields|
      invariant i <= |p.fields| && forall a, b :: 0 <= a < b < i ==> p.fields[a].name != p.fields[b].name
    {
      var j := 0;
      while j < i
        invariant j <= i && forall a :: 0 <= a < j ==> p.fields[a].name != p.fields[i].name
      {
        if p.fields[j].name == p.fields[i].name { return true; }
        j := j + 1;
      }
      i := i + 1;
    }
    i := 0;
    while i < |p.methods|
      invariant i <= |p.methods| && forall a, b :: 0 <= a < b < i ==> p.methods[a].name != p.methods[b].name
    {
      var j := 0;
      while j < i
        invariant j <= i && forall a :: 0 <= a < j ==> p.methods[a].name != p.methods[i].name
      {
        if p.methods[j].name == p.methods[i].name { return true; }
        j := j + 1;
      }
      i := i + 1;
    }
    return false;
  }

  method CheckOne(list: Protos, p: Proto, steps: nat) returns (r: Answer<bool>)
    ensures Settles(r, OneAnswer(list, p), list, steps)
  {
    hide FieldsAnswer;
    hide MethodsAnswer;
    if p.parent.None? { return Said(true); }
    var parent := Find(list, p.parent.value);
    if parent.None? || parent.value.sealed { return Said(false); }
    var fields := CheckFields(list, p.parent.value, p.fields, steps);
    if fields.Going? { return Going; }
    var methods := CheckMethods(list, p.parent.value, p.methods, steps);
    if methods.Going? { return Going; }
    r := Said(fields.value && methods.value);
  }

  method CheckFields(list: Protos, name: string, fs: seq<Field>, steps: nat) returns (r: Answer<bool>)
    ensures Settles(r, FieldsAnswer(list, name, fs), list, steps)
  {
    hide FieldAnswer;
    var i := 0;
    assert fs[0..] == fs;
    while i < |fs|
      invariant i <= |fs| && FieldsAnswer(list, name, fs[i..]) == FieldsAnswer(list, name, fs)
    {
      assert fs[i..][0] == fs[i] && fs[i..][1..] == fs[i + 1..];
      var found := FindField(list, name, fs[i].name, steps);
      if found.Going? { return Going; }
      if found.value { return Said(false); }
      i := i + 1;
    }
    r := Said(true);
  }

  method CheckMethods(list: Protos, name: string, ms: seq<Method>, steps: nat) returns (r: Answer<bool>)
    ensures Settles(r, MethodsAnswer(list, name, ms), list, steps)
  {
    hide MethodAnswer;
    hide OverrideAnswer;
    var i := 0;
    assert ms[0..] == ms;
    while i < |ms|
      invariant i <= |ms| && MethodsAnswer(list, name, ms[i..]) == MethodsAnswer(list, name, ms)
    {
      assert ms[i..][0] == ms[i] && ms[i..][1..] == ms[i + 1..];
      var base := FindMethod(list, name, ms[i].name, steps);
      if base.Going? { return Going; }
      if base.value.Some? {
        var good := CheckOverride(list, base.value.value, ms[i], steps);
        if good != Said(true) { return good; }
      }
      i := i + 1;
    }
    r := Said(true);
  }

  /** Visibility, signature, and return type, in this order. */
  method CheckOverride(list: Protos, base: Method, m: Method, steps: nat) returns (r: Answer<bool>)
    ensures Settles(r, OverrideAnswer(list, base, m), list, steps)
  {
    if (!base.isInternal && m.isInternal) || !SameSignature(base, m) { return Said(false); }
    if base.ret == m.ret { return Said(true); }
    r := IsSubtype(list, m.ret, base.ret, steps);
  }
}
