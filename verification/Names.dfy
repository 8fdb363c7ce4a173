/** Source variables and their IR names.  `slots[i]` is the IR name of declaration `i`. */
module Names {
  import opened Options
  import opened Ir
  import opened Source
  import opened Lowering
  import opened WorkingGraph
  import opened Static

  ghost predicate Slots(slots: seq<Name>, n: nat) {
    (forall i :: 0 <= i < |slots| ==> slots[i].Local? && slots[i].id <= n) &&
    forall i, j :: 0 <= i < j < |slots| ==> slots[i] != slots[j]
  }

  /** The types that the frontend has recorded for the variables. */
  function TypesAt(types: map<Name, Ty>, slots: seq<Name>): (ts: seq<Ty>)
    ensures |ts| == |slots|
  {
    seq(|slots|, i requires 0 <= i < |slots| => if slots[i] in types then types[slots[i]] else TUnknown)
  }

  /** With the recorded types, arithmetic is on ints. */
  predicate ExprFits(e: Expr, st: Ctx, g: seq<Decl>, slots: seq<Name>) {
    |slots| == |g| && TypedExpr(e, g, TypesAt(st.types, slots))
  }

  predicate StmtFits(s: Stmt, st: Ctx, g: seq<Decl>, slots: seq<Name>) {
    |slots| == |g| && TypedStmt(s, g, TypesAt(st.types, slots))
  }

  predicate AllFits(ss: seq<Stmt>, st: Ctx, g: seq<Decl>, slots: seq<Name>) {
    |slots| == |g| && TypedAll(ss, g, TypesAt(st.types, slots))
  }

  ghost predicate NameAgrees(st: Ctx, g: seq<Decl>, slots: seq<Name>, x: string) {
    |slots| == |g| && (Find(g, x).Some? ==> Lookup(st.scope, x) == Some(slots[Find(g, x).value]))
  }

  /** Every visible variable has its own IR name and the lowering scope finds it. */
  ghost predicate Binds(st: Ctx, g: seq<Decl>, slots: seq<Name>) {
    Slots(slots, st.varId) && |slots| == |g| && forall x: string :: NameAgrees(st, g, slots, x)
  }

  /** What an expression needs of `Binds`. */
  ghost predicate BindsFor(e: Expr, st: Ctx, g: seq<Decl>, slots: seq<Name>) {
    Slots(slots, st.varId) && |slots| == |g| && forall x: string :: Mentions(e, x) ==> NameAgrees(st, g, slots, x)
  }

  /** A variable outside `slots` does not change their types. */
  lemma TypesApart(types: map<Name, Ty>, n: Name, ty: Ty, slots: seq<Name>)
    requires n !in slots
    ensures TypesAt(types[n := ty], slots) == TypesAt(types, slots)
  {
  }

  lemma SameScope(e: Expr, st: Ctx, st1: Ctx, g: seq<Decl>, slots: seq<Name>)
    requires BindsFor(e, st, g, slots)
    requires st1.scope == st.scope && st.varId <= st1.varId
    ensures BindsFor(e, st1, g, slots)
  {
    forall x: string | Mentions(e, x)
      ensures NameAgrees(st1, g, slots, x)
    {
      assert NameAgrees(st, g, slots, x);
    }
  }

  lemma BindsSub(e: Expr, sub: Expr, st: Ctx, g: seq<Decl>, slots: seq<Name>)
    requires BindsFor(e, st, g, slots)
    requires forall x: string :: Mentions(sub, x) ==> Mentions(e, x)
    ensures BindsFor(sub, st, g, slots)
  {
  }

  lemma ArithmeticIs(op: BinOp)
    ensures IsArithmetic(op) <==> !IsComparison(op)
  {
  }

  /** The frontend's guess is the type that the text gives. */
  lemma {:induction false} GuessIsType(e: Expr, st: Ctx, g: seq<Decl>, slots: seq<Name>)
    requires WfExpr(e, g) && BindsFor(e, st, g, slots)
    ensures Guess(e, st) == TypeOf(e, g, TypesAt(st.types, slots))
  {
    match e {
      case EVar(x) => assert NameAgrees(st, g, slots, x);
      case EInc(_, _, x) => assert NameAgrees(st, g, slots, x);
      case EUn(op, arg) =>
        if !(op == Neg && arg == ELit(-INT_MIN)) { BindsSub(e, arg, st, g, slots); GuessIsType(arg, st, g, slots); }
      case EBin(op, left, _) =>
        ArithmeticIs(op);
        if IsArithmetic(op) { BindsSub(e, left, st, g, slots); GuessIsType(left, st, g, slots); }
      case ECond(_, yes, _) => BindsSub(e, yes, st, g, slots); GuessIsType(yes, st, g, slots);
      case _ =>
    }
  }

  // ----- declarations, blocks and loops -----

  function SlotsAfter(s: Stmt, slots: seq<Name>, st: Ctx): seq<Name> {
    if s.SDecl? then slots + [Local(s.decl.name, st.varId + 1)] else slots
  }

  function SlotsAll(ss: seq<Stmt>, slots: seq<Name>, st: Ctx): (r: seq<Name>)
    ensures slots <= r
    decreases |ss|
  {
    if ss == [] then slots else SlotsAll(ss[1..], SlotsAfter(ss[0], slots, st), LowerStmt(ss[0], st))
  }

  lemma BindsSame(a: Ctx, b: Ctx, g: seq<Decl>, slots: seq<Name>)
    requires Binds(a, g, slots) && b.scope == a.scope && a.varId <= b.varId
    ensures Binds(b, g, slots)
  {
    forall x: string
      ensures NameAgrees(b, g, slots, x)
    {
      assert NameAgrees(a, g, slots, x);
    }
  }

  lemma FindNewest(g: seq<Decl>, d: Decl, x: string)
    ensures Find(g + [d], x) == if d.name == x then Some(|g|) else Find(g, x)
  {
    assert (g + [d])[..|g|] == g;
  }

  lemma BindsDefine(st: Ctx, g: seq<Decl>, slots: seq<Name>, d: Decl)
    requires Binds(st, g, slots)
    ensures var (s1, ir) := NextVar(st, d.name); Binds(Define(s1, d, ir), g + [d], slots + [ir])
  {
    var (s1, ir) := NextVar(st, d.name);
    var s2 := Define(s1, d, ir);
    assert s2.scope[..|st.scope|] == st.scope;
    forall x: string
      ensures NameAgrees(s2, g + [d], slots + [ir], x)
    {
      assert NameAgrees(st, g, slots, x);
      FindNewest(g, d, x);
    }
  }

  /** A block restores the scope; a name declared inside it is gone. */
  lemma BindsLeave(st: Ctx, r: Ctx, g: seq<Decl>, slots: seq<Name>)
    requires Binds(st, g, slots) && st.varId <= r.varId
    ensures Binds(r.(scope := st.scope), g, slots)
  {
    var b := r.(scope := st.scope);
    forall x: string
      ensures NameAgrees(b, g, slots, x)
    {
      assert NameAgrees(st, g, slots, x);
    }
  }

  /** The variable of a `for` stays in the scope around the loop; a fresh name hides nothing there. */
  lemma BindsDrop(st: Ctx, g: seq<Decl>, slots: seq<Name>, d: Decl, ir: Name)
    requires Binds(st, g + [d], slots + [ir]) && Find(g, d.name).None?
    ensures Binds(st, g, slots)
  {
    forall x: string
      ensures NameAgrees(st, g, slots, x)
    {
      assert NameAgrees(st, g + [d], slots + [ir], x);
      FindNewest(g, d, x);
    }
    forall i, j | 0 <= i < j < |slots|
      ensures slots[i] != slots[j]
    {
      assert (slots + [ir])[i] != (slots + [ir])[j];
    }
    forall i | 0 <= i < |slots|
      ensures slots[i].Local? && slots[i].id <= st.varId
    {
      assert (slots + [ir])[i] == slots[i];
    }
  }

  /** The same for all declarations of a list. */
  lemma BindsDropAll(st: Ctx, g: seq<Decl>, slots: seq<Name>, h: seq<Decl>, more: seq<Name>)
    requires Binds(st, h, more) && g <= h && slots <= more && |slots| == |g|
    requires forall i :: |g| <= i < |h| ==> Find(g, h[i].name).None?
    ensures Binds(st, g, slots)
  {
    forall x: string
      ensures NameAgrees(st, g, slots, x)
    {
      assert NameAgrees(st, h, more, x);
      if Find(g, x).Some? { FindDropped(g, h, x); }
    }
    assert forall i :: 0 <= i < |g| ==> h[i] == g[i] && more[i] == slots[i];
  }

  lemma {:induction false} FindDropped(g: seq<Decl>, h: seq<Decl>, x: string)
    requires g <= h && Find(g, x).Some? && forall i :: |g| <= i < |h| ==> Find(g, h[i].name).None?
    ensures Find(h, x) == Find(g, x)
    decreases |h|
  {
    if |h| == |g| {
      assert h == g;
    } else {
      assert h[|h| - 1].name != x;
      FindDropped(g, h[..|h| - 1], x);
    }
  }

  lemma ForExpr(e: Expr, st: Ctx, g: seq<Decl>, slots: seq<Name>)
    requires Binds(st, g, slots)
    ensures BindsFor(e, st, g, slots)
  {
  }

  lemma BindsSlots(st: Ctx, g: seq<Decl>, slots: seq<Name>)
    requires Binds(st, g, slots)
    ensures Slots(slots, st.varId) && |slots| == |g|
  {
  }
}
