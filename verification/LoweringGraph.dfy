/** Every lowered function is a well-formed graph: labels are unique, every jump and branch names a
    block, every block holds a terminator, no two declarations share an IR name, and every variable is
    declared.  All but the terminators hold of every program, well behaved or not;
    for these `Finished.dfy` has the condition. */
module LoweringGraph {
  import opened Options
  import opened Ir
  import opened Source
  import opened Lowering
  import opened WorkingGraph
  import opened Finished

  // ----- the invariant -----

  ghost predicate Carried(st: Ctx, l: Label) {
    exists b :: 0 <= b < |st.blocks| && st.blocks[b].tag == l
  }

  /** Labels whose blocks are still to come, the number that declared names lie above, and the parameters. */
  datatype Pending = Pending(labels: set<Label>, above: nat, params: set<Name>)

  ghost function With(p: Pending, l: Label): Pending {
    p.(labels := p.labels + {l})
  }

  /** `l` names a block or a pending one. */
  ghost predicate Reaches(st: Ctx, pending: Pending, l: Label) {
    l in pending.labels || Carried(st, l)
  }

  ghost predicate TargetsExist(st: Ctx, pending: Pending, i: Instr) {
    (i.Jump? ==> Reaches(st, pending, i.target)) &&
    (i.BranchIf? ==> Reaches(st, pending, i.thenLabel) && Reaches(st, pending, i.elseLabel))
  }

  predicate DeclaresAt(blocks: seq<Block>, b: int, p: int) {
    0 <= b < |blocks| && 0 <= p < |blocks[b].instrs| && blocks[b].instrs[p].VarDecl?
  }

  ghost predicate DeclaredOnce(blocks: seq<Block>) {
    forall b, p, c, q ::
      DeclaresAt(blocks, b, p) && DeclaresAt(blocks, c, q) && blocks[b].instrs[p] == blocks[c].instrs[q] ==>
        b == c && p == q
  }

  ghost predicate DeclaredWithin(blocks: seq<Block>, above: nat, n: nat) {
    above <= n && forall b, p :: DeclaresAt(blocks, b, p) ==>
                                   blocks[b].instrs[p].name.Local? && above < blocks[b].instrs[p].name.id <= n
  }

  ghost predicate Linked(st: Ctx, pending: Pending) {
    forall b, p :: 0 <= b < |st.blocks| && 0 <= p < |st.blocks[b].instrs| ==>
                     TargetsExist(st, pending, st.blocks[b].instrs[p])
  }

  /** A parameter, declared somewhere in the code, or a name that no scope has. */
  ghost predicate HasHome(blocks: seq<Block>, params: set<Name>, x: Name) {
    x.Global? || x in params || exists b, p :: DeclaresAt(blocks, b, p) && blocks[b].instrs[p].name == x
  }

  /** Variables are read and written only where they have a home. */
  ghost predicate AtHome(blocks: seq<Block>, params: set<Name>, i: Instr) {
    (i.LoadVar? || i.StoreVar?) ==> HasHome(blocks, params, i.name)
  }

  ghost predicate ScopeHome(st: Ctx, params: set<Name>, scope: seq<Binding>) {
    forall k :: 0 <= k < |scope| ==> HasHome(st.blocks, params, scope[k].ir)
  }

  ghost predicate Homed(st: Ctx, params: set<Name>) {
    ScopeHome(st, params, st.scope) &&
    forall b, p :: 0 <= b < |st.blocks| && 0 <= p < |st.blocks[b].instrs| ==>
                     AtHome(st.blocks, params, st.blocks[b].instrs[p])
  }

  /** The graph built so far. */
  ghost predicate Sound(st: Ctx, pending: Pending) {
    Linked(st, pending) && DeclaredOnce(st.blocks) && DeclaredWithin(st.blocks, pending.above, st.varId) &&
    Homed(st, pending.params)
  }

  /** The labels that code may jump to here. */
  ghost predicate Known(st: Ctx, pending: Pending, known: set<Label>) {
    forall l :: l in known ==> Reaches(st, pending, l)
  }

  /** `break` and `continue` have somewhere to go. */
  ghost predicate Aims(st: Ctx, known: set<Label>) {
    (forall k :: 0 <= k < |st.breaks| ==> st.breaks[k] in known) &&
    forall k :: 0 <= k < |st.loops| ==> st.loops[k].continueLabel in known
  }

  /** Lowering has gone from `st` to `a` soundly. */
  ghost predicate Fine(st: Ctx, a: Ctx, pending: Pending, known: set<Label>) {
    Ok(a) && Grows(st, a) && Sound(a, pending) && Known(a, pending, known)
  }

  // ----- steps -----

  lemma ReachesKept(a: Ctx, b: Ctx, pending: Pending, l: Label)
    requires Kept(a, b) && Reaches(a, pending, l)
    ensures Reaches(b, pending, l)
  {
    if l !in pending.labels {
      var k :| 0 <= k < |a.blocks| && a.blocks[k].tag == l;
      assert b.blocks[k].tag == l;
    }
  }

  lemma LinkedKept(a: Ctx, b: Ctx, pending: Pending, i: Instr)
    requires Kept(a, b) && TargetsExist(a, pending, i)
    ensures TargetsExist(b, pending, i)
  {
    if i.Jump? { ReachesKept(a, b, pending, i.target); }
    if i.BranchIf? {
      ReachesKept(a, b, pending, i.thenLabel);
      ReachesKept(a, b, pending, i.elseLabel);
    }
  }

  lemma EmitLinked(a: Ctx, i: Instr, pending: Pending)
    requires a.cur < |a.blocks| && Linked(a, pending) && TargetsExist(a, pending, i)
    ensures Linked(Emit(a, i), pending)
  {
    hide TargetsExist;
    var r := Emit(a, i);
    forall b, p | 0 <= b < |r.blocks| && 0 <= p < |r.blocks[b].instrs|
      ensures TargetsExist(r, pending, r.blocks[b].instrs[p])
    {
      if b != a.cur || p < |a.blocks[b].instrs| {
        assert r.blocks[b].instrs[p] == a.blocks[b].instrs[p];
      }
      LinkedKept(a, r, pending, r.blocks[b].instrs[p]);
    }
  }

  lemma EmitDeclared(a: Ctx, i: Instr, above: nat)
    requires a.cur < |a.blocks| && DeclaredOnce(a.blocks) && DeclaredWithin(a.blocks, above, a.varId) && !i.VarDecl?
    ensures DeclaredOnce(Emit(a, i).blocks) && DeclaredWithin(Emit(a, i).blocks, above, a.varId)
  {
    var r := Emit(a, i);
    forall b, p | DeclaresAt(r.blocks, b, p)
      ensures DeclaresAt(a.blocks, b, p) && r.blocks[b].instrs[p] == a.blocks[b].instrs[p]
    {
    }
  }

  // ----- homes -----

  lemma HomeKept(a: Ctx, b: Ctx, params: set<Name>, x: Name)
    requires Kept(a, b) && HasHome(a.blocks, params, x)
    ensures HasHome(b.blocks, params, x)
  {
    if !x.Global? && x !in params {
      var k, p :| DeclaresAt(a.blocks, k, p) && a.blocks[k].instrs[p].name == x;
      assert DeclaresAt(b.blocks, k, p) && b.blocks[k].instrs[p].name == x;
    }
  }

  lemma ScopeKept(a: Ctx, b: Ctx, params: set<Name>, scope: seq<Binding>)
    requires Kept(a, b) && ScopeHome(a, params, scope)
    ensures ScopeHome(b, params, scope)
  {
    hide Kept;
    hide HasHome;
    forall k | 0 <= k < |scope|
      ensures HasHome(b.blocks, params, scope[k].ir)
    {
      HomeKept(a, b, params, scope[k].ir);
    }
  }

  lemma EmitHomed(a: Ctx, i: Instr, params: set<Name>)
    requires a.cur < |a.blocks| && Homed(a, params) && AtHome(Emit(a, i).blocks, params, i)
    ensures Homed(Emit(a, i), params)
  {
    hide HasHome;
    var r := Emit(a, i);
    EmitKept(a, i);
    ScopeKept(a, r, params, a.scope);
    forall b, p | 0 <= b < |r.blocks| && 0 <= p < |r.blocks[b].instrs|
      ensures AtHome(r.blocks, params, r.blocks[b].instrs[p])
    {
      if b != a.cur || p < |a.blocks[b].instrs| {
        var j := a.blocks[b].instrs[p];
        assert AtHome(a.blocks, params, j) && r.blocks[b].instrs[p] == j;
        if j.LoadVar? || j.StoreVar? { HomeKept(a, r, params, j.name); }
      }
    }
  }

  lemma AddHomed(a: Ctx, l: Label, params: set<Name>)
    requires Homed(a, params)
    ensures Homed(AddBlock(a, l), params)
  {
    hide HasHome;
    var r := AddBlock(a, l);
    var t := r.(cur := a.cur);
    assert Kept(a, t);
    ScopeKept(a, t, params, a.scope);
    forall b, p | 0 <= b < |r.blocks| && 0 <= p < |r.blocks[b].instrs|
      ensures AtHome(r.blocks, params, r.blocks[b].instrs[p])
    {
      var j := a.blocks[b].instrs[p];
      assert AtHome(a.blocks, params, j) && r.blocks[b].instrs[p] == j;
      if j.LoadVar? || j.StoreVar? { HomeKept(a, t, params, j.name); }
    }
  }

  lemma {:induction false} LookupHome(st: Ctx, params: set<Name>, scope: seq<Binding>, x: string)
    requires ScopeHome(st, params, scope)
    ensures Lookup(scope, x).Some? ==> HasHome(st.blocks, params, Lookup(scope, x).value)
  {
    hide HasHome;
    if scope != [] && scope[|scope| - 1].name != x { LookupHome(st, params, scope[..|scope| - 1], x); }
  }

  /** What a name stands for has a home. */
  lemma ResolveHome(st: Ctx, pending: Pending, x: string)
    requires Sound(st, pending)
    ensures HasHome(st.blocks, pending.params, Resolve(st, x))
  {
    LookupHome(st, pending.params, st.scope, x);
    hide Linked;
    hide DeclaredOnce;
    hide DeclaredWithin;
    hide Homed;
  }

  lemma SoundEmit(a: Ctx, i: Instr, pending: Pending)
    requires a.cur < |a.blocks| && Sound(a, pending) && !i.VarDecl? && TargetsExist(a, pending, i)
    requires AtHome(a.blocks, pending.params, i)
    ensures var r := Emit(a, i);
            Sound(r, pending) && r.cur == a.cur && |r.blocks| == |a.blocks| && Kept(a, r)
  {
    hide Linked;
    hide DeclaredOnce;
    hide DeclaredWithin;
    hide TargetsExist;
    hide IsTerminator;
    hide Homed;
    hide HasHome;
    EmitLinked(a, i, pending);
    EmitDeclared(a, i, pending.above);
    EmitKept(a, i);
    if i.LoadVar? || i.StoreVar? { HomeKept(a, Emit(a, i), pending.params, i.name); }
    EmitHomed(a, i, pending.params);
  }

  /** An instruction that neither jumps nor declares. */
  lemma SoundPlain(a: Ctx, i: Instr, pending: Pending)
    requires a.cur < |a.blocks| && Sound(a, pending) && !i.VarDecl? && !IsTerminator(i)
    requires AtHome(a.blocks, pending.params, i)
    ensures Sound(Emit(a, i), pending) && Emit(a, i).cur == a.cur && |Emit(a, i).blocks| == |a.blocks|
  {
    hide Sound;
    SoundEmit(a, i, pending);
  }

  lemma SoundJump(a: Ctx, l: Label, pending: Pending)
    requires a.cur < |a.blocks| && Sound(a, pending) && Reaches(a, pending, l)
    ensures var r := Emit(a, Jump(l)); Sound(r, pending) && r.cur == a.cur && |r.blocks| == |a.blocks| && Kept(a, r)
  {
    hide Sound;
    SoundEmit(a, Jump(l), pending);
  }

  lemma SoundBranch(a: Ctx, c: Name, yes: Label, no: Label, pending: Pending)
    requires a.cur < |a.blocks| && Sound(a, pending) && Reaches(a, pending, yes) && Reaches(a, pending, no)
    ensures var r := Emit(a, BranchIf(c, yes, no));
            Sound(r, pending) && r.cur == a.cur && |r.blocks| == |a.blocks| && Kept(a, r)
  {
    hide Sound;
    SoundEmit(a, BranchIf(c, yes, no), pending);
  }

  lemma SoundJumpUnless(a: Ctx, l: Label, pending: Pending)
    requires a.cur < |a.blocks| && Sound(a, pending) && Reaches(a, pending, l)
    ensures Sound(JumpUnlessTerminated(a, l), pending)
  {
    hide Linked;
    hide DeclaredOnce;
    hide DeclaredWithin;
    SoundJump(a, l, pending);
  }

  lemma SoundSame(a: Ctx, b: Ctx, pending: Pending)
    requires Sound(a, pending) && b.blocks == a.blocks && a.varId <= b.varId && b.scope == a.scope
    ensures Sound(b, pending)
  {
    hide HasHome;
    forall k, p | 0 <= k < |b.blocks| && 0 <= p < |b.blocks[k].instrs|
      ensures TargetsExist(b, pending, b.blocks[k].instrs[p])
    {
      assert TargetsExist(a, pending, a.blocks[k].instrs[p]);
      LinkedKept(a, b.(cur := a.cur), pending, b.blocks[k].instrs[p]);
    }
  }

  /** The label it carries is pending no more. */
  lemma SoundAdd(a: Ctx, l: Label, pending: Pending)
    requires Sound(a, With(pending, l))
    ensures Sound(AddBlock(a, l), pending) && Reaches(AddBlock(a, l), pending, l)
  {
    AddHomed(a, l, pending.params);
    hide Homed;
    var r := AddBlock(a, l);
    assert r.blocks[|a.blocks|].tag == l;
    forall k, p | 0 <= k < |r.blocks| && 0 <= p < |r.blocks[k].instrs|
      ensures TargetsExist(r, pending, r.blocks[k].instrs[p])
    {
      assert k < |a.blocks| && TargetsExist(a, With(pending, l), a.blocks[k].instrs[p]);
      AddedReaches(a, l, pending, r.blocks[k].instrs[p]);
    }
    forall b, p | DeclaresAt(r.blocks, b, p)
      ensures DeclaresAt(a.blocks, b, p) && r.blocks[b].instrs[p] == a.blocks[b].instrs[p]
    {
    }
  }

  lemma AddedReaches(a: Ctx, l: Label, pending: Pending, i: Instr)
    requires TargetsExist(a, With(pending, l), i)
    ensures TargetsExist(AddBlock(a, l), pending, i)
  {
    var r := AddBlock(a, l);
    assert r.blocks[|a.blocks|].tag == l;
    forall t | Reaches(a, With(pending, l), t)
      ensures Reaches(r, pending, t)
    {
      if t !in pending.labels && t != l {
        var k :| 0 <= k < |a.blocks| && a.blocks[k].tag == t;
        assert r.blocks[k].tag == t;
      }
    }
  }

  lemma SoundPending(a: Ctx, pending: Pending, more: Pending)
    requires Sound(a, pending) && pending.labels <= more.labels && more == pending.(labels := more.labels)
    ensures Sound(a, more)
  {
    hide Homed;
    forall b, p | 0 <= b < |a.blocks| && 0 <= p < |a.blocks[b].instrs|
      ensures TargetsExist(a, more, a.blocks[b].instrs[p])
    {
      assert TargetsExist(a, pending, a.blocks[b].instrs[p]);
    }
  }

  lemma {:induction false} SoundOpen(a: Ctx, prefixes: seq<string>, pending: Pending)
    requires Sound(a, pending)
    ensures var (r, labels) := OpenBlocks(a, prefixes);
            Sound(r, pending) && |r.blocks| == |a.blocks| + |prefixes| && r.cur == a.cur &&
            forall i :: 0 <= i < |labels| ==> Reaches(r, pending, labels[i])
  {
    hide Sound;
    OpenBlocksIs(a, prefixes);
    var (r, labels) := OpenBlocks(a, prefixes);
    if prefixes == [] {
    } else {
      var front := prefixes[..|prefixes| - 1];
      SoundOpen(a, front, pending);
      OpenBlocksIs(a, front);
      var (s1, ls) := OpenBlocks(a, front);
      var (s2, l) := NextLabel(s1, prefixes[|prefixes| - 1]);
      SoundSame(s1, s2, pending);
      SoundPending(s2, pending, With(pending, l));
      SoundAdd(s2, l, pending);
    }
    forall i | 0 <= i < |labels|
      ensures Reaches(r, pending, labels[i])
    {
      assert r.blocks[|a.blocks| + i].tag == labels[i];
    }
  }

  // ----- expressions -----

  lemma {:induction false} ExprSound(e: Expr, a: Ctx, pending: Pending)
    requires Ok(a) && Sound(a, pending)
    ensures var r := LowerExpr(e, a).0; Sound(r, pending)
    decreases e, 1
  {
    hide Sound;
    hide Emit;
    hide Ok;
    hide Grows;
    LowerExprGrows(e, a);
    OkCur(a);
    var t := a.(tempId := a.tempId + 1);
    SoundSame(a, t, pending);
    match e {
      case ELit(n) => PlainTemp(a, Const(Temp(a.tempId + 1), IntText(n)), pending);
      case EBool(b) => PlainTemp(a, Const(Temp(a.tempId + 1), RawBool(b)), pending);
      case EVar(x) =>
        ResolveHome(a, pending, x);
        PlainTemp(a, LoadVar(Temp(a.tempId + 1), Resolve(a, x)), pending);
      case EUn(op, arg) =>
        if op == Neg && arg == ELit(-INT_MIN) {
          PlainTemp(a, Const(Temp(a.tempId + 1), IntText(INT_MIN)), pending);
        } else {
          ExprSound(arg, a, pending);
          LowerExprGrows(arg, a);
          var (s1, v) := LowerExpr(arg, a);
          OkCur(s1);
          PlainTemp(s1, Unary(Temp(s1.tempId + 1), op, v), pending);
        }
      case EBin(op, left, right) =>
        PairSound(e, left, right, a, pending);
        var (s1, l) := LowerExpr(left, a);
        var (s2, r) := LowerExpr(right, s1);
        BinSound(s2, op, l, r, Guess(left, s2) == TInt && Guess(right, s2) == TInt, pending);
      case ELogic(isAnd, left, right) =>
        LogicSound(e, a, pending);
      case EInc(up, prefix, x) => IncSound(e, a, pending);
      case ECond(cond, yes, no) =>
        ExprSound(cond, a, pending);
        LowerExprGrows(cond, a);
        var (s1, c) := LowerExpr(cond, a);
        PairSound(e, yes, no, s1, pending);
        var (s2, y) := LowerExpr(yes, s1);
        var (s3, n) := LowerExpr(no, s2);
        PlainTemp(s3, Select(Temp(s3.tempId + 1), c, y, n), pending);
    }
  }

  lemma OkCur(a: Ctx)
    requires Ok(a)
    ensures a.cur < |a.blocks|
  {
  }

  lemma PlainTemp(a: Ctx, i: Instr, pending: Pending)
    requires a.cur < |a.blocks| && Sound(a, pending) && !i.VarDecl? && !IsTerminator(i)
    requires AtHome(a.blocks, pending.params, i)
    ensures var r := Emit(NextTemp(a).0, i);
            Sound(r, pending) && r.cur == a.cur && |r.blocks| == |a.blocks|
  {
    hide Sound;
    hide Emit;
    SoundSame(a, NextTemp(a).0, pending);
    SoundPlain(NextTemp(a).0, i, pending);
  }

  /** Two expressions in a row. */
  lemma {:induction false} PairSound(e: Expr, left: Expr, right: Expr, a: Ctx, pending: Pending)
    requires Ok(a) && Sound(a, pending)
    requires (e.EBin? && left == e.left && right == e.right) || (e.ECond? && left == e.yes && right == e.no)
    ensures var s1 := LowerExpr(left, a).0;
            var s2 := LowerExpr(right, s1).0;
            Sound(s2, pending) && Ok(s2) && s2.cur < |s2.blocks|
    decreases e, 0
  {
    hide Sound;
    hide Ok;
    hide LowerExpr;
    hide Grows;
    ExprSound(left, a, pending);
    LowerExprGrows(left, a);
    var s1 := LowerExpr(left, a).0;
    ExprSound(right, s1, pending);
    LowerExprGrows(right, s1);
    var s2 := LowerExpr(right, s1).0;
    OkCur(s2);
  }

  predicate Plain(i: Instr) {
    !i.VarDecl? && !i.LoadVar? && !i.StoreVar? && !IsTerminator(i)
  }

  lemma {:induction false} EmitAllSound(a: Ctx, code: seq<Instr>, pending: Pending)
    requires a.cur < |a.blocks| && Sound(a, pending) && forall i :: i in code ==> Plain(i)
    ensures var r := EmitAll(a, code); Sound(r, pending) && r.cur == a.cur && |r.blocks| == |a.blocks|
    decreases |code|
  {
    hide Sound;
    hide Emit;
    if code != [] {
      assert Plain(code[0]);
      SoundPlain(a, code[0], pending);
      EmitAllSound(Emit(a, code[0]), code[1..], pending);
    }
  }

  lemma BinSound(a: Ctx, op: BinOp, l: Name, r: Name, intLike: bool, pending: Pending)
    requires a.cur < |a.blocks| && Sound(a, pending)
    ensures var x := EmitBin(a, op, l, r, intLike).0; Sound(x, pending) && x.cur == a.cur
  {
    hide Sound;
    hide Emit;
    hide EmitAll;
    EmitAllSound(a, Checks(op, l, r, intLike), pending);
    var b := EmitAll(a, Checks(op, l, r, intLike));
    PlainTemp(b, Bin(Temp(b.tempId + 1), op, l, r), pending);
  }

  lemma StaysHome(a: Ctx, i: Instr, pending: Pending, x: Name)
    requires a.cur < |a.blocks| && HasHome(a.blocks, pending.params, x)
    ensures HasHome(Emit(a, i).blocks, pending.params, x)
  {
    EmitKept(a, i);
    HomeKept(a, Emit(a, i), pending.params, x);
  }

  lemma IncSound(e: Expr, a: Ctx, pending: Pending)
    requires e.EInc? && a.cur < |a.blocks| && Sound(a, pending)
    ensures var r := LowerExpr(e, a).0; Sound(r, pending)
  {
    hide Sound;
    var name := Resolve(a, e.x);
    var cur, one, next := Temp(a.tempId + 1), Temp(a.tempId + 2), Temp(a.tempId + 3);
    var b := a.(tempId := a.tempId + 3);
    SoundSame(a, b, pending);
    hide Emit;
    hide HasHome;
    hide Kept;
    ResolveHome(a, pending, e.x);
    var i1, i2, i3, i4 := LoadVar(cur, name), Const(one, IntText(1)), Bin(next, if e.up then Add else Sub, cur, one),
                          StoreVar(name, next);
    SoundPlain(b, i1, pending);
    StaysHome(b, i1, pending, name);
    SoundPlain(Emit(b, i1), i2, pending);
    StaysHome(Emit(b, i1), i2, pending, name);
    SoundPlain(Emit(Emit(b, i1), i2), i3, pending);
    StaysHome(Emit(Emit(b, i1), i2), i3, pending, name);
    SoundPlain(Emit(Emit(Emit(b, i1), i2), i3), i4, pending);
  }

  lemma {:induction false} LogicSound(e: Expr, a: Ctx, pending: Pending)
    requires e.ELogic? && Ok(a) && Sound(a, pending)
    ensures var r := LowerExpr(e, a).0; Sound(r, pending)
    decreases e, 0
  {
    hide Sound;
    hide Ok;
    hide Grows;
    hide OpenLogic;
    hide CloseLogic;
    ExprSound(e.left, a, pending);
    LowerExprGrows(e.left, a);
    var (s1, l) := LowerExpr(e.left, a);
    OpenLogicSound(e.isAnd, l, s1, pending);
    OpenLogicGrows(e.isAnd, l, s1);
    var (s2, q) := OpenLogic(e.isAnd, l, s1);
    ExprSound(e.right, s2, pending);
    LowerExprGrows(e.right, s2);
    var (s3, r) := LowerExpr(e.right, s2);
    CountsOf(s2, s3);
    OkCur(s3);
    DoneReached(e.isAnd, l, s1, s3, pending);
    CloseLogicSound(r, q, s3, pending);
  }

  lemma OpenLogicSound(isAnd: bool, l: Name, a: Ctx, pending: Pending)
    requires Ok(a) && Sound(a, pending)
    ensures var (r, q) := OpenLogic(isAnd, l, a); Sound(r, pending)
  {
    hide Sound;
    hide Emit;
    hide OpenBlocks;
    OkCur(a);
    var prefixes := ["logic_right_", "logic_short_", "logic_done_"];
    SoundOpen(a, prefixes, pending);
    var (s1, labels) := OpenBlocks(a, prefixes);
    var (s2, cont) := NextLabel(s1, "logic_cont_");
    var (s3, dst) := NextTemp(s2);
    var n := |a.blocks|;
    SoundSame(s1, s3, pending);
    var right, short, done := labels[0], labels[1], labels[2];
    ReachesSame(s1, s3, pending, right);
    ReachesSame(s1, s3, pending, short);
    ReachesSame(s1, s3, pending, done);
    var i := BranchIf(l, if isAnd then right else short, if isAnd then short else right);
    SoundBranch(s3, l, if isAnd then right else short, if isAnd then short else right, pending);
    var s4 := Emit(s3, i);
    ReachesKept(s3, s4, pending, done);
    var t4 := At(s4, n + 1);
    SoundSame(s4, t4, pending);
    SoundPlain(t4, Const(dst, RawBool(!isAnd)), pending);
    var t5 := Emit(t4, Const(dst, RawBool(!isAnd)));
    ReachesSame(s4, t4, pending, done);
    EmitKept(t4, Const(dst, RawBool(!isAnd)));
    ReachesKept(t4, t5, pending, done);
    SoundJump(t5, done, pending);
    var t6 := Emit(t5, Jump(done));
    var r := At(t6, n);
    SoundSame(t6, r, pending);
  }

  lemma EmitKept(a: Ctx, i: Instr)
    requires a.cur < |a.blocks|
    ensures Kept(a, Emit(a, i))
  {
  }

  lemma ReachesSame(a: Ctx, b: Ctx, pending: Pending, l: Label)
    requires Reaches(a, pending, l) && b.blocks == a.blocks
    ensures Reaches(b, pending, l)
  {
    ReachesKept(a, b.(cur := a.cur), pending, l);
  }

  lemma DoneReached(isAnd: bool, l: Name, a: Ctx, x: Ctx, pending: Pending)
    requires var r := OpenLogic(isAnd, l, a).0; Grows(r, x)
    ensures Reaches(x, pending, OpenLogic(isAnd, l, a).1.done)
  {
    var prefixes := ["logic_right_", "logic_short_", "logic_done_"];
    OpenBlocksIs(a, prefixes);
    var (r, q) := OpenLogic(isAnd, l, a);
    assert r.blocks[|a.blocks| + 2].tag == q.done;
    ReachesKept(r, x, pending, q.done);
  }

  lemma CloseLogicSound(v: Name, q: Logic, a: Ctx, pending: Pending)
    requires a.cur < |a.blocks| && Sound(a, pending) && Reaches(a, pending, q.done) && q.base + 2 < |a.blocks|
    ensures var r := CloseLogic(v, q, a); Sound(r, pending)
  {
    hide Sound;
    hide Emit;
    hide Reaches;
    hide Kept;
    var a1 := Emit(a, Copy(q.dst, v));
    SoundPlain(a, Copy(q.dst, v), pending);
    EmitKept(a, Copy(q.dst, v));
    ReachesKept(a, a1, pending, q.done);
    SoundJump(a1, q.done, pending);
    var a2 := Emit(a1, Jump(q.done));
    SoundPending(a2, pending, With(pending, q.cont));
    SoundAdd(a2, q.cont, pending);
    var b := AddBlock(a2, q.cont);
    var c := At(b, q.base + 2);
    SoundSame(b, c, pending);
    SoundPlain(c, Nop, pending);
    EmitKept(c, Nop);
    ReachesSame(b, c, pending, q.cont);
    ReachesKept(c, Emit(c, Nop), pending, q.cont);
    SoundJump(Emit(c, Nop), q.cont, pending);
    var d := Emit(Emit(c, Nop), Jump(q.cont));
    var r := At(d, |b.blocks| - 1);
    SoundSame(d, r, pending);
  }

  // ----- statements -----

  lemma KnownKept(a: Ctx, b: Ctx, pending: Pending, known: set<Label>)
    requires Known(a, pending, known) && Kept(a, b)
    ensures Known(b, pending, known)
  {
    forall l | l in known
      ensures Reaches(b, pending, l)
    {
      ReachesKept(a, b, pending, l);
    }
  }

  lemma KnownSame(a: Ctx, b: Ctx, pending: Pending, known: set<Label>)
    requires Known(a, pending, known) && b.blocks == a.blocks
    ensures Known(b, pending, known)
  {
    forall l | l in known
      ensures Reaches(b, pending, l)
    {
      ReachesSame(a, b, pending, l);
    }
  }

  lemma FineStart(st: Ctx, pending: Pending, known: set<Label>)
    requires Ok(st) && Sound(st, pending) && Known(st, pending, known)
    ensures Fine(st, st, pending, known)
  {
    GrowsSelf(st);
  }

  lemma FineParts(st: Ctx, a: Ctx, pending: Pending, known: set<Label>)
    requires Fine(st, a, pending, known)
    ensures Ok(a) && Grows(st, a) && Sound(a, pending) && Known(a, pending, known) && a.cur < |a.blocks| &&
            |st.blocks| <= |a.blocks|
    ensures SameTargets(st, a) && forall l :: l in known ==> Reaches(a, pending, l)
  {
    hide Sound;
    hide Reaches;
  }

  lemma FinePlain(st: Ctx, a: Ctx, i: Instr, pending: Pending, known: set<Label>)
    requires Fine(st, a, pending, known) && Plain(i)
    ensures var r := Emit(a, i); Fine(st, r, pending, known) && r.cur == a.cur && |r.blocks| == |a.blocks| &&
                                 r.varId == a.varId
  {
    hide Sound;
    hide Known;
    hide Emit;
    hide Grows;
    EmitThen(st, a, i);
    SoundPlain(a, i, pending);
    EmitKept(a, i);
    EmitIs(a, i);
    KnownKept(a, Emit(a, i), pending, known);
  }

  lemma FineStore(st: Ctx, a: Ctx, x: string, v: Name, pending: Pending, known: set<Label>)
    requires Fine(st, a, pending, known)
    ensures var r := Emit(a, StoreVar(Resolve(a, x), v)); Fine(st, r, pending, known)
  {
    hide Sound;
    hide Known;
    hide Emit;
    hide Grows;
    hide HasHome;
    var i := StoreVar(Resolve(a, x), v);
    ResolveHome(a, pending, x);
    EmitThen(st, a, i);
    SoundPlain(a, i, pending);
    EmitKept(a, i);
    KnownKept(a, Emit(a, i), pending, known);
  }

  lemma FineJump(st: Ctx, a: Ctx, l: Label, pending: Pending, known: set<Label>)
    requires Fine(st, a, pending, known) && l in known
    ensures var r := Emit(a, Jump(l)); Fine(st, r, pending, known) && r.cur == a.cur && |r.blocks| == |a.blocks|
  {
    hide Sound;
    hide Reaches;
    hide Emit;
    hide Grows;
    EmitThen(st, a, Jump(l));
    SoundJump(a, l, pending);
    EmitKept(a, Jump(l));
    KnownKept(a, Emit(a, Jump(l)), pending, known);
  }

  lemma FineBranch(st: Ctx, a: Ctx, c: Name, yes: Label, no: Label, pending: Pending, known: set<Label>)
    requires Fine(st, a, pending, known) && yes in known && no in known
    ensures var r := Emit(a, BranchIf(c, yes, no));
            Fine(st, r, pending, known) && r.cur == a.cur && |r.blocks| == |a.blocks|
  {
    hide Sound;
    hide Reaches;
    hide Emit;
    hide Grows;
    EmitThen(st, a, BranchIf(c, yes, no));
    SoundBranch(a, c, yes, no, pending);
    EmitKept(a, BranchIf(c, yes, no));
    KnownKept(a, Emit(a, BranchIf(c, yes, no)), pending, known);
  }

  lemma FineRet(st: Ctx, a: Ctx, i: Instr, pending: Pending, known: set<Label>)
    requires Fine(st, a, pending, known) && (i.Ret? || i.RetVoid? || i.RetDefault?)
    ensures var r := Emit(a, i); Fine(st, r, pending, known)
  {
    hide Sound;
    hide Known;
    hide Emit;
    hide Grows;
    EmitThen(st, a, i);
    SoundEmit(a, i, pending);
    EmitKept(a, i);
    KnownKept(a, Emit(a, i), pending, known);
  }

  lemma FineJumpUnless(st: Ctx, a: Ctx, l: Label, pending: Pending, known: set<Label>)
    requires Fine(st, a, pending, known) && l in known
    ensures var r := JumpUnlessTerminated(a, l);
            Fine(st, r, pending, known) && r.cur == a.cur && |r.blocks| == |a.blocks|
  {
    hide Sound;
    hide Reaches;
    hide Emit;
    hide Grows;
    JumpThen(st, a, l);
    SoundJumpUnless(a, l, pending);
    EmitKept(a, Jump(l));
    KnownKept(a, Emit(a, Jump(l)), pending, known);
  }

  lemma FineAt(st: Ctx, a: Ctx, k: nat, pending: Pending, known: set<Label>)
    requires Fine(st, a, pending, known) && |st.blocks| <= k < |a.blocks|
    ensures Fine(st, At(a, k), pending, known)
  {
    hide Sound;
    hide Known;
    MoveGrows(st, a, k);
    SoundSame(a, At(a, k), pending);
    KnownSame(a, At(a, k), pending, known);
  }

  lemma FineOpen(st: Ctx, a: Ctx, prefixes: seq<string>, pending: Pending, known: set<Label>)
    requires Fine(st, a, pending, known)
    ensures var (r, labels) := OpenBlocks(a, prefixes);
            Fine(st, r, pending, known + (set l | l in labels)) &&
            |r.blocks| == |a.blocks| + |prefixes| && r.cur == a.cur
  {
    hide Sound;
    hide Reaches;
    OpenThen(st, a, prefixes);
    SoundOpen(a, prefixes, pending);
    OpenBlocksGrows(a, prefixes);
    KnownKept(a, OpenBlocks(a, prefixes).0, pending, known);
  }

  lemma FineExpr(st: Ctx, a: Ctx, e: Expr, pending: Pending, known: set<Label>)
    requires Fine(st, a, pending, known)
    ensures var r := LowerExpr(e, a).0;
            Fine(st, r, pending, known) && |a.blocks| <= |r.blocks| && (r.cur == a.cur || |a.blocks| <= r.cur)
  {
    hide Sound;
    hide Known;
    ExprThen(st, a, e);
    ExprSound(e, a, pending);
    LowerExprGrows(e, a);
    KnownKept(a, LowerExpr(e, a).0, pending, known);
  }

  /** Types and counters do not matter. */
  lemma FineTwin(st: Ctx, a: Ctx, b: Ctx, pending: Pending, known: set<Label>)
    requires Fine(st, a, pending, known) && SameTargets(a, b) && b.blocks == a.blocks && b.cur == a.cur
    requires b.scope == a.scope
    requires a.tempId <= b.tempId && a.labelId <= b.labelId && a.varId <= b.varId
    ensures Fine(st, b, pending, known)
  {
    hide Sound;
    hide Known;
    MoreGrows(st, a, b);
    SoundSame(a, b, pending);
    KnownSame(a, b, pending, known);
  }

  /** An earlier scope comes back. */
  lemma FineScope(st: Ctx, a: Ctx, pending: Pending, known: set<Label>)
    requires Fine(st, a, pending, known) && Sound(st, pending)
    ensures Fine(st, a.(scope := st.scope), pending, known)
  {
    hide Known;
    hide HasHome;
    hide Linked;
    hide DeclaredOnce;
    hide DeclaredWithin;
    var b := a.(scope := st.scope);
    MoreGrows(st, a, b);
    KnownSame(a, b, pending, known);
    ScopeKept(st, a, pending.params, st.scope);
    LinkedSame(a, b, pending);
    hide Ok;
    hide Grows;
  }

  /** A declaration draws a name that no earlier one has. */
  lemma FineDeclare(st: Ctx, a: Ctx, base: string, pending: Pending, known: set<Label>, b: Ctx)
    requires Fine(st, a, pending, known) && SameTargets(a, b) && b.blocks == a.blocks && b.cur == a.cur
    requires a.tempId <= b.tempId && a.labelId <= b.labelId && b.varId == a.varId + 1
    requires b.scope == a.scope + [Binding(base, Local(base, b.varId))]
    ensures Fine(st, Emit(b, VarDecl(Local(base, b.varId))), pending, known) &&
            Emit(b, VarDecl(Local(base, b.varId))).cur == a.cur
  {
    hide Linked;
    hide Known;
    var i := VarDecl(Local(base, b.varId));
    var r := Emit(b, i);
    MoreGrows(st, a, b);
    EmitThen(st, b, i);
    EmitKept(b, i);
    KnownSame(a, b, pending, known);
    KnownKept(b, r, pending, known);
    LinkedSame(a, b, pending);
    EmitLinked(b, i, pending);
    DeclareHomed(a, b, base, pending.params);
    hide Homed;
    hide Grows;
    hide Ok;
    forall k, p | DeclaresAt(r.blocks, k, p)
      ensures if k == b.cur && p == |b.blocks[k].instrs| then r.blocks[k].instrs[p] == i
              else DeclaresAt(a.blocks, k, p) && r.blocks[k].instrs[p] == a.blocks[k].instrs[p]
    {
    }
  }

  lemma DeclareHomed(a: Ctx, b: Ctx, base: string, params: set<Name>)
    requires Homed(a, params) && b.blocks == a.blocks && b.cur == a.cur < |a.blocks|
    requires b.scope == a.scope + [Binding(base, Local(base, b.varId))]
    ensures Homed(Emit(b, VarDecl(Local(base, b.varId))), params)
  {
    var i := VarDecl(Local(base, b.varId));
    var c, r := b.(scope := a.scope), Emit(b, i);
    EmitHomed(c, i, params);
    assert DeclaresAt(r.blocks, b.cur, |b.blocks[b.cur].instrs|);
    assert HasHome(r.blocks, params, Local(base, b.varId));
    assert r.blocks == Emit(c, i).blocks;
    hide HasHome;
    hide AtHome;
  }

  lemma LinkedSame(a: Ctx, b: Ctx, pending: Pending)
    requires Sound(a, pending) && b.blocks == a.blocks && a.varId <= b.varId
    ensures Linked(b, pending)
  {
    SoundSame(a, b.(scope := a.scope), pending);
    hide Sound;
    LinkedTwin(b.(scope := a.scope), b, pending);
  }

  lemma LinkedTwin(a: Ctx, b: Ctx, pending: Pending)
    requires Linked(a, pending) && b == a.(scope := b.scope)
    ensures Linked(b, pending)
  {
    forall k, p | 0 <= k < |b.blocks| && 0 <= p < |b.blocks[k].instrs|
      ensures TargetsExist(b, pending, b.blocks[k].instrs[p])
    {
      assert TargetsExist(a, pending, a.blocks[k].instrs[p]);
      LinkedKept(a, b, pending, b.blocks[k].instrs[p]);
    }
  }

  lemma FineLess(st: Ctx, a: Ctx, pending: Pending, known: set<Label>, less: set<Label>)
    requires Fine(st, a, pending, known) && less <= known
    ensures Fine(st, a, pending, less)
  {
    hide Sound;
    hide Reaches;
  }

  lemma FineTrans(st: Ctx, a: Ctx, b: Ctx, pending: Pending, known: set<Label>)
    requires Grows(st, a) && Fine(a, b, pending, known)
    ensures Fine(st, b, pending, known) && |a.blocks| <= |b.blocks| && (b.cur == a.cur || |a.blocks| <= b.cur)
  {
    hide Sound;
    hide Known;
    GrowsTrans(st, a, b);
  }

  lemma AimsSame(a: Ctx, b: Ctx, known: set<Label>, more: set<Label>)
    requires Aims(a, known) && SameTargets(a, b) && known <= more
    ensures Aims(b, more)
  {
  }

  lemma {:induction false} StmtFine(s: Stmt, st: Ctx, pending: Pending, known: set<Label>)
    requires Ok(st) && Sound(st, pending) && Known(st, pending, known) && Aims(st, known)
    ensures var r := LowerStmt(s, st); Fine(st, r, pending, known)
    decreases s, 2
  {
    hide Fine;
    hide Emit;
    hide LowerExpr;
    hide Aims;
    hide Grows;
    hide Ok;
    hide Sound;
    hide Known;
    hide LowerDecl;
    hide LowerAssign;
    FineStart(st, pending, known);
    AimsLast(st, known);
    match s {
      case SDecl(d, init) => DeclFine(d, init, st, pending, known);
      case SAssign(x, aop, rhs) => AssignFine(x, aop, rhs, st, pending, known);
      case SExpr(e) => FineExpr(st, st, e, pending, known);
      case SBlock(body) => BlockFine(s, st, pending, known);
      case SIf(_, _, _) => IfFine(s, st, pending, known);
      case SWhile(_, _) => WhileFine(s, st, pending, known);
      case SDo(_, _) => DoFine(s, st, pending, known);
      case SFor(_, _, _, _) => ForFine(s, st, pending, known);
      case SSwitch(_, _, _) => SwitchFine(s, st, pending, known);
      case SBreak => LeaveFine(st, if st.breaks == [] then Unhandled
                               else Jump(st.breaks[|st.breaks| - 1]), pending, known);
      case SContinue => LeaveFine(st, if st.loops == [] then Unhandled
                                  else Jump(st.loops[|st.loops| - 1].continueLabel), pending, known);
      case SReturn(result) =>
        if result.Some? {
          FineExpr(st, st, result.value, pending, known);
          var (s1, v) := LowerExpr(result.value, st);
          FineRet(st, s1, Ret(v), pending, known);
        } else {
          FineRet(st, st, RetVoid, pending, known);
        }
    }
  }

  lemma AimsLast(st: Ctx, known: set<Label>)
    requires Aims(st, known)
    ensures st.breaks != [] ==> st.breaks[|st.breaks| - 1] in known
    ensures st.loops != [] ==> st.loops[|st.loops| - 1].continueLabel in known
  {
  }

  lemma LeaveFine(st: Ctx, i: Instr, pending: Pending, known: set<Label>)
    requires Fine(st, st, pending, known)
    requires i.Unhandled? || (i.Jump? && i.target in known)
    ensures var r := Emit(st, i); Fine(st, r, pending, known)
  {
    hide Fine;
    hide Emit;
    if i.Unhandled? {
      FinePlain(st, st, i, pending, known);
    } else {
      FineJump(st, st, i.target, pending, known);
    }
  }

  lemma DeclFine(d: Decl, init: Option<Expr>, st: Ctx, pending: Pending, known: set<Label>)
    requires Fine(st, st, pending, known)
    ensures var r := LowerDecl(d, init, st); Fine(st, r, pending, known)
  {
    hide Fine;
    hide Emit;
    hide LowerExpr;
    var (s1, ir) := NextVar(st, d.name);
    FineDeclare(st, st, d.name, pending, known, Define(s1, d, ir));
    var s2 := Emit(Define(s1, d, ir), VarDecl(ir));
    match init {
      case Some(e) =>
        FineExpr(st, s2, e, pending, known);
        var (s3, v) := LowerExpr(e, s2);
        FineStore(st, s3, d.name, v, pending, known);
      case None =>
        var (t, dst) := NextTemp(s2);
        var i := Const(dst, if d.ty == TBool then RawBool(false) else IntText(0));
        FineTwin(st, s2, t, pending, known);
        FinePlain(st, t, i, pending, known);
        var s3 := Emit(t, i);
        FineStore(st, s3, d.name, dst, pending, known);
    }
  }

  lemma AssignFine(x: string, aop: Option<BinOp>, rhs: Expr, st: Ctx, pending: Pending, known: set<Label>)
    requires Fine(st, st, pending, known)
    ensures var r := LowerAssign(x, aop, rhs, st); Fine(st, r, pending, known)
  {
    hide Fine;
    hide Emit;
    hide LowerExpr;
    hide EmitBin;
    FineExpr(st, st, rhs, pending, known);
    var (s1, v) := LowerExpr(rhs, st);
    match aop {
      case None =>
        var s2 := s1.(types := s1.types[Resolve(s1, x) := Guess(rhs, s1)]);
        FineTwin(st, s1, s2, pending, known);
        FineStore(st, s2, x, v, pending, known);
      case Some(op) =>
        FineExpr(st, s1, EVar(x), pending, known);
        var (s2, cur) := LowerExpr(EVar(x), s1);
        var intLike := Guess(EVar(x), s1) == TInt && Guess(rhs, s1) == TInt;
        FineBin(st, s2, op, cur, v, intLike, pending, known);
        var (s3, next) := EmitBin(s2, op, cur, v, intLike);
        FineStore(st, s3, x, next, pending, known);
    }
  }

  lemma FineBin(st: Ctx, a: Ctx, op: BinOp, l: Name, r: Name, intLike: bool, pending: Pending, known: set<Label>)
    requires Fine(st, a, pending, known)
    ensures var x := EmitBin(a, op, l, r, intLike).0; Fine(st, x, pending, known) && x.cur == a.cur
  {
    hide Sound;
    hide Known;
    hide EmitBin;
    EmitBinGrows(a, op, l, r, intLike);
    var x := EmitBin(a, op, l, r, intLike).0;
    GrowsTrans(st, a, x);
    BinSound(a, op, l, r, intLike, pending);
    KnownKept(a, x, pending, known);
  }

  lemma {:induction false} StmtThenFine(st: Ctx, a: Ctx, s: Stmt, pending: Pending, known: set<Label>)
    requires Fine(st, a, pending, known) && Aims(a, known)
    ensures var r := LowerStmt(s, a);
            Fine(st, r, pending, known) && Aims(r, known) && |a.blocks| <= |r.blocks| &&
            (r.cur == a.cur || |a.blocks| <= r.cur)
    decreases s, 3
  {
    hide *;
    FineParts(st, a, pending, known);
    StmtFine(s, a, pending, known);
    var r := LowerStmt(s, a);
    FineParts(a, r, pending, known);
    FineTrans(st, a, r, pending, known);
    AimsSame(a, r, known, known);
  }

  lemma {:induction false} AllFine(ss: seq<Stmt>, st: Ctx, a: Ctx, pending: Pending, known: set<Label>)
    requires Fine(st, a, pending, known) && Aims(a, known)
    ensures var r := LowerAll(ss, a);
            Fine(st, r, pending, known) && |a.blocks| <= |r.blocks| && (r.cur == a.cur || |a.blocks| <= r.cur)
    decreases ss, 0
  {
    hide Fine;
    hide Aims;
    hide LowerStmt;
    if ss == [] {
    } else {
      assert ss[0] in ss;
      StmtThenFine(st, a, ss[0], pending, known);
      var s1 := LowerStmt(ss[0], a);
      AllFine(ss[1..], st, s1, pending, known);
      var r := LowerAll(ss, a);
    }
  }

  lemma {:induction false} BlockFine(s: Stmt, st: Ctx, pending: Pending, known: set<Label>)
    requires s.SBlock? && Fine(st, st, pending, known) && Aims(st, known)
    ensures var r := LowerStmt(s, st); Fine(st, r, pending, known)
    decreases s, 0
  {
    hide Fine;
    hide Aims;
    hide LowerAll;
    AllFine(s.body, st, st, pending, known);
    var r := LowerAll(s.body, st);
    FineParts(st, st, pending, known);
    FineScope(st, r, pending, known);
  }

  /** A condition, the blocks opened after it, and the branch: the current block is finished. */
  lemma HeadFine(st: Ctx, e: Expr, prefixes: seq<string>, i: nat, j: nat, pending: Pending, known: set<Label>)
    requires Fine(st, st, pending, known) && i < |prefixes| && j < |prefixes|
    ensures var (s1, c) := LowerExpr(e, st);
            var (s2, labels) := OpenBlocks(s1, prefixes);
            var s3 := Emit(s2, BranchIf(c, labels[i], labels[j]));
            Fine(st, s3, pending, known + (set l | l in labels)) &&
            |st.blocks| <= |s1.blocks| && |s3.blocks| == |s1.blocks| + |prefixes|
  {
    hide Fine;
    hide Emit;
    hide LowerExpr;
    hide OpenBlocks;
    FineExpr(st, st, e, pending, known);
    var (s1, c) := LowerExpr(e, st);
    FineOpen(st, s1, prefixes, pending, known);
    var (s2, labels) := OpenBlocks(s1, prefixes);
    FineBranch(st, s2, c, labels[i], labels[j], pending, known + (set l | l in labels));
  }

  lemma {:induction false} IfFine(s: Stmt, st: Ctx, pending: Pending, known: set<Label>)
    requires s.SIf? && Fine(st, st, pending, known) && Aims(st, known)
    ensures var r := LowerStmt(s, st); Fine(st, r, pending, known)
    decreases s, 0, 2
  {
    hide Fine;
    hide Emit;
    hide LowerExpr;
    hide Aims;
    hide Grows;
    hide Ok;
    hide OpenBlocks;
    hide JumpUnlessTerminated;
    var prefixes := ["if_then_", "if_done_"] + if s.no.Some? then ["if_else_"] else [];
    HeadFine(st, s.cond, prefixes, 0, if s.no.Some? then 2 else 1, pending, known);
    var (s1, c) := LowerExpr(s.cond, st);
    var n := |s1.blocks|;
    var (s2, labels) := OpenBlocks(s1, prefixes);
    var k := known + (set l | l in labels);
    var s3 := Emit(s2, BranchIf(c, labels[0], if s.no.Some? then labels[2] else labels[1]));
    FineAt(st, s3, n, pending, k);
    ArmFine(s, s.yes, st, At(s3, n), labels[1], pending, known, k);
    var s4 := JumpUnlessTerminated(LowerStmt(s.yes, At(s3, n)), labels[1]);
    IfTail(s, st, s4, n, labels[1], pending, known, k, |prefixes| - 2);
  }

  lemma {:induction false} IfTail(s: Stmt, st: Ctx, a: Ctx, n: nat, doneL: Label, pending: Pending, known: set<Label>,
                                  k: set<Label>, rest: nat)
    requires s.SIf? && Fine(st, a, pending, k) && Aims(st, known) && known <= k && doneL in k
    requires rest == (if s.no.Some? then 1 else 0) && |st.blocks| <= n && n + 2 + rest <= |a.blocks|
    ensures var b := if s.no.Some? then JumpUnlessTerminated(LowerStmt(s.no.value, At(a, n + 2)), doneL) else a;
            var r := Emit(At(b, n + 1), Nop); Fine(st, r, pending, known)
    decreases s, 0, 1
  {
    hide Fine;
    hide Emit;
    hide Aims;
    hide JumpUnlessTerminated;
    hide LowerStmt;
    var b := a;
    if s.no.Some? {
      FineAt(st, a, n + 2, pending, k);
      ArmFine(s, s.no.value, st, At(a, n + 2), doneL, pending, known, k);
      b := JumpUnlessTerminated(LowerStmt(s.no.value, At(a, n + 2)), doneL);
    }
    FineAt(st, b, n + 1, pending, k);
    FinePlain(st, At(b, n + 1), Nop, pending, k);
    FineLess(st, Emit(At(b, n + 1), Nop), pending, k, known);
  }

  /** One arm of a statement `parent` and the jump after it. */
  lemma {:induction false} ArmFine(parent: Stmt, s: Stmt, st: Ctx, a: Ctx, l: Label, pending: Pending,
                                   known: set<Label>, k: set<Label>)
    requires Fine(st, a, pending, k) && Aims(st, known) && known <= k && l in k
    requires parent.SIf? && (s == parent.yes || parent.no == Some(s))
    ensures var r := JumpUnlessTerminated(LowerStmt(s, a), l); Fine(st, r, pending, k) && |a.blocks| <= |r.blocks|
    decreases parent, 0, 0
  {
    hide *;
    FineParts(st, a, pending, k);
    AimsSame(st, a, known, k);
    StmtThenFine(st, a, s, pending, k);
    var r := LowerStmt(s, a);
    FineJumpUnless(st, r, l, pending, k);
  }

  // ----- loops -----

  lemma PushAims(a: Ctx, doneL: Label, againL: Label, known: set<Label>, k: set<Label>)
    requires Aims(a, known) && known <= k && doneL in k && againL in k
    ensures Aims(Push(a, doneL, againL), k)
  {
  }

  lemma PushFine(a: Ctx, doneL: Label, againL: Label, pending: Pending, known: set<Label>)
    requires Ok(a) && Sound(a, pending) && Known(a, pending, known)
    ensures var p := Push(a, doneL, againL); Fine(p, p, pending, known)
  {
    hide Sound;
    hide Known;
    var p := Push(a, doneL, againL);
    PushOk(a, p);
    SoundSame(a, p, pending);
    KnownSame(a, p, pending, known);
  }

  lemma PopFine(st: Ctx, a: Ctx, doneL: Label, againL: Label, j: Ctx, pending: Pending, known: set<Label>)
    requires Fine(st, a, pending, known)
    requires Fine(Push(a, doneL, againL), j, pending, known)
    ensures Fine(st, Pop(j), pending, known) && |a.blocks| <= |Pop(j).blocks|
  {
    hide Sound;
    hide Known;
    var p := Push(a, doneL, againL);
    TargetsOf(p, j);
    PopGrows(st, a, p, j, Pop(j));
    SoundSame(j, Pop(j), pending);
    KnownSame(j, Pop(j), pending, known);
    CountsOf(p, j);
  }

  lemma {:induction false} BodyFine(loop: Stmt, st: Ctx, a: Ctx, doneL: Label, againL: Label, pending: Pending,
                                    known: set<Label>, k: set<Label>)
    requires Fine(st, a, pending, k) && Aims(st, known) && known <= k && doneL in k && againL in k
    ensures var r := LowerBody(loop, doneL, againL, a); Fine(st, r, pending, k) && |a.blocks| <= |r.blocks|
    decreases loop, 4
  {
    hide *;
    var p := Push(a, doneL, againL);
    FineParts(st, a, pending, k);
    AimsSame(st, a, known, k);
    PushAims(a, doneL, againL, k, k);
    PushFine(a, doneL, againL, pending, k);
    StmtThenFine(p, p, loop, pending, k);
    var r := LowerStmt(loop, p);
    FineJumpUnless(p, r, againL, pending, k);
    var j := JumpUnlessTerminated(r, againL);
    PushCur(a, doneL, againL);
    PopFine(st, a, doneL, againL, j, pending, k);
    BodyUnfolds(loop, doneL, againL, a);
  }

  lemma PushCur(a: Ctx, doneL: Label, againL: Label)
    ensures Push(a, doneL, againL).cur == a.cur
  {
  }

  lemma BodyUnfolds(loop: Stmt, doneL: Label, againL: Label, a: Ctx)
    ensures LowerBody(loop, doneL, againL, a) ==
            Pop(JumpUnlessTerminated(LowerStmt(loop, Push(a, doneL, againL)), againL))
  {
  }

  /** Blocks are opened and the current block jumps to the first. */
  lemma EnterFine(st: Ctx, prefixes: seq<string>, pending: Pending, known: set<Label>)
    requires Fine(st, st, pending, known) && prefixes != []
    ensures var (s1, labels) := OpenBlocks(st, prefixes);
            var s2 := At(Emit(s1, Jump(labels[0])), |st.blocks|);
            Fine(st, s2, pending, known + (set l | l in labels)) &&
            |s2.blocks| == |st.blocks| + |prefixes|
  {
    hide Emit;
    hide OpenBlocks;
    FineParts(st, st, pending, known);
    hide Fine;
    FineOpen(st, st, prefixes, pending, known);
    var (s1, labels) := OpenBlocks(st, prefixes);
    var n, k := |st.blocks|, known + (set l | l in labels);
    FineJump(st, s1, labels[0], pending, k);
    FineAt(st, Emit(s1, Jump(labels[0])), n, pending, k);
  }

  /** A condition and its branch finish the block they are in. */
  lemma TestFine(st: Ctx, a: Ctx, e: Expr, yes: Label, no: Label, pending: Pending, k: set<Label>)
    requires Fine(st, a, pending, k) && yes in k && no in k
    ensures var (s1, c) := LowerExpr(e, a);
            var r := Emit(s1, BranchIf(c, yes, no));
            Fine(st, r, pending, k) && |a.blocks| <= |r.blocks|
  {
    hide Fine;
    hide Emit;
    hide LowerExpr;
    FineExpr(st, a, e, pending, k);
    var (s1, c) := LowerExpr(e, a);
    FineBranch(st, s1, c, yes, no, pending, k);
  }

  /** The last of the blocks opened for a statement takes the `nop`. */
  lemma DoneFine(st: Ctx, a: Ctx, done: nat, pending: Pending, known: set<Label>, k: set<Label>)
    requires Fine(st, a, pending, k) && known <= k && |st.blocks| <= done < |a.blocks|
    ensures var r := Emit(At(a, done), Nop); Fine(st, r, pending, known)
  {
    hide Fine;
    hide Emit;
    FineAt(st, a, done, pending, k);
    FinePlain(st, At(a, done), Nop, pending, k);
    FineLess(st, Emit(At(a, done), Nop), pending, k, known);
  }

  lemma {:induction false} WhileFine(s: Stmt, st: Ctx, pending: Pending, known: set<Label>)
    requires s.SWhile? && Fine(st, st, pending, known) && Aims(st, known)
    ensures var r := LowerStmt(s, st); Fine(st, r, pending, known)
    decreases s, 0
  {
    hide Fine;
    hide Emit;
    hide LowerExpr;
    hide Aims;
    hide Grows;
    hide Ok;
    hide OpenBlocks;
    hide LowerBody;
    var n := |st.blocks|;
    var prefixes := ["while_cond_", "while_body_", "while_done_"];
    EnterFine(st, prefixes, pending, known);
    var (s1, labels) := OpenBlocks(st, prefixes);
    var k := known + (set l | l in labels);
    var t := At(Emit(s1, Jump(labels[0])), n);
    TestFine(st, t, s.cond, labels[1], labels[2], pending, k);
    var (s2, c) := LowerExpr(s.cond, t);
    var s3 := Emit(s2, BranchIf(c, labels[1], labels[2]));
    FineAt(st, s3, n + 1, pending, k);
    BodyFine(s.loop, st, At(s3, n + 1), labels[2], labels[0], pending, known, k);
    DoneFine(st, LowerBody(s.loop, labels[2], labels[0], At(s3, n + 1)), n + 2, pending, known, k);
  }

  lemma {:induction false} DoFine(s: Stmt, st: Ctx, pending: Pending, known: set<Label>)
    requires s.SDo? && Fine(st, st, pending, known) && Aims(st, known)
    ensures var r := LowerStmt(s, st); Fine(st, r, pending, known)
    decreases s, 0
  {
    hide Fine;
    hide Emit;
    hide LowerExpr;
    hide Aims;
    hide Grows;
    hide Ok;
    hide OpenBlocks;
    hide LowerBody;
    var n := |st.blocks|;
    var prefixes := ["do_body_", "do_cond_", "do_done_"];
    EnterFine(st, prefixes, pending, known);
    var (s1, labels) := OpenBlocks(st, prefixes);
    var k := known + (set l | l in labels);
    var t := At(Emit(s1, Jump(labels[0])), n);
    BodyFine(s.loop, st, t, labels[2], labels[1], pending, known, k);
    var s2 := LowerBody(s.loop, labels[2], labels[1], t);
    FineAt(st, s2, n + 1, pending, k);
    TestFine(st, At(s2, n + 1), s.cond, labels[0], labels[2], pending, k);
    var (s3, c) := LowerExpr(s.cond, At(s2, n + 1));
    DoneFine(st, Emit(s3, BranchIf(c, labels[0], labels[2])), n + 2, pending, known, k);
  }

  /** A statement in a block of its own, then an unconditional jump. */
  lemma {:induction false} HopFine(s: Stmt, st: Ctx, a: Ctx, l: Label, pending: Pending, known: set<Label>,
                                   k: set<Label>)
    requires Fine(st, a, pending, k) && Aims(st, known) && known <= k && l in k
    ensures var r := Emit(LowerStmt(s, a), Jump(l)); Fine(st, r, pending, k) && |a.blocks| <= |r.blocks|
    decreases s, 4
  {
    hide *;
    FineParts(st, a, pending, k);
    AimsSame(st, a, known, k);
    StmtThenFine(st, a, s, pending, k);
    var r := LowerStmt(s, a);
    FineJump(st, r, l, pending, k);
  }

  lemma {:induction false} ForFine(s: Stmt, st: Ctx, pending: Pending, known: set<Label>)
    requires s.SFor? && Fine(st, st, pending, known) && Aims(st, known)
    ensures var r := LowerStmt(s, st); Fine(st, r, pending, known)
    decreases s, 0
  {
    hide Fine;
    hide Emit;
    hide LowerExpr;
    hide Aims;
    hide Grows;
    hide Ok;
    hide OpenBlocks;
    hide LowerBody;
    var n := |st.blocks|;
    var prefixes := ["for_init_", "for_cond_", "for_body_", "for_step_", "for_done_"];
    EnterFine(st, prefixes, pending, known);
    var (s1, labels) := OpenBlocks(st, prefixes);
    var k := known + (set l | l in labels);
    var t1 := At(Emit(s1, Jump(labels[0])), n);
    HopFine(s.start, st, t1, labels[1], pending, known, k);
    var s2 := Emit(LowerStmt(s.start, t1), Jump(labels[1]));
    FineAt(st, s2, n + 1, pending, k);
    TestFine(st, At(s2, n + 1), s.cond, labels[2], labels[4], pending, k);
    var (s3, c) := LowerExpr(s.cond, At(s2, n + 1));
    var s4 := Emit(s3, BranchIf(c, labels[2], labels[4]));
    FineAt(st, s4, n + 2, pending, k);
    BodyFine(s.loop, st, At(s4, n + 2), labels[4], labels[3], pending, known, k);
    var s5 := LowerBody(s.loop, labels[4], labels[3], At(s4, n + 2));
    FineAt(st, s5, n + 3, pending, k);
    HopFine(s.step, st, At(s5, n + 3), labels[1], pending, known, k);
    DoneFine(st, Emit(LowerStmt(s.step, At(s5, n + 3)), Jump(labels[1])), n + 4, pending, known, k);
  }

  // ----- switch -----

  lemma {:induction false} CasesFine(v: Name, s: Stmt, i: nat, n: nat, labels: seq<Label>, defaultL: Label,
                                     doneL: Label, t: Ctx, a: Ctx,
                                     pending: Pending, k: set<Label>, m: nat)
    requires s.SSwitch? && i <= |s.cases| && 2 * |s.cases| <= |labels| == m && |t.blocks| <= n && n + m <= |a.blocks|
    requires Fine(t, a, pending, k) && Aims(t, k)
    requires (forall l :: l in labels ==> l in k) && defaultL in k && doneL in k
    ensures var r := LowerCases(v, s, i, n, labels, defaultL, doneL, a);
            Fine(t, r, pending, k) && |a.blocks| <= |r.blocks|
    decreases s, 0, |s.cases| - i
  {
    hide Fine;
    hide Emit;
    hide LowerExpr;
    hide LowerAll;
    hide Aims;
    hide JumpUnlessTerminated;
    if i < |s.cases| {
      var c := s.cases[i];
      FineAt(t, a, n + 2 * i, pending, k);
      var (s1, w) := LowerExpr(c.value, At(a, n + 2 * i));
      FineExpr(t, At(a, n + 2 * i), c.value, pending, k);
      var (s2, eq) := NextTemp(s1);
      FineTwin(t, s1, s2, pending, k);
      FinePlain(t, s2, Bin(eq, Eq, v, w), pending, k);
      var otherwise := if i + 1 < |s.cases| then labels[2 * i + 2] else defaultL;
      var s3 := Emit(Emit(s2, Bin(eq, Eq, v, w)), BranchIf(eq, labels[2 * i + 1], otherwise));
      FineBranch(t, Emit(s2, Bin(eq, Eq, v, w)), eq, labels[2 * i + 1], otherwise, pending, k);
      var b := At(s3, n + 2 * i + 1);
      FineAt(t, s3, n + 2 * i + 1, pending, k);
      CaseBodyFine(s, i, t, b, doneL, pending, k);
      var s4 := JumpUnlessTerminated(LowerAll(c.body, b), doneL);
      CasesFine(v, s, i + 1, n, labels, defaultL, doneL, t, s4, pending, k, m);
    }
  }

  lemma {:induction false} CaseBodyFine(s: Stmt, i: nat, t: Ctx, b: Ctx, doneL: Label, pending: Pending, k: set<Label>)
    requires s.SSwitch? && i < |s.cases| && Fine(t, b, pending, k) && Aims(t, k) && doneL in k
    ensures var r := JumpUnlessTerminated(LowerAll(s.cases[i].body, b), doneL);
            Fine(t, r, pending, k) && |b.blocks| <= |r.blocks|
    decreases s, 0, 0, i
  {
    hide Fine;
    hide Aims;
    hide LowerAll;
    hide JumpUnlessTerminated;
    var body := s.cases[i].body;
    assert s.cases[i] in s.cases;
    FineParts(t, b, pending, k);
    AimsSame(t, b, k, k);
    AllFine(body, t, b, pending, k);
    var r := LowerAll(body, b);
    FineJumpUnless(t, r, doneL, pending, k);
  }

  lemma {:induction false} DefaultFine(s: Stmt, t: Ctx, b: Ctx, doneL: Label, pending: Pending, k: set<Label>)
    requires s.SSwitch? && s.default.Otherwise? && Fine(t, b, pending, k) && Aims(t, k) && doneL in k
    ensures var r := JumpUnlessTerminated(LowerAll(s.default.body, b), doneL);
            Fine(t, r, pending, k) && |b.blocks| <= |r.blocks|
    decreases s, 0, 0
  {
    hide Fine;
    hide Aims;
    hide LowerAll;
    hide JumpUnlessTerminated;
    FineParts(t, b, pending, k);
    AimsSame(t, b, k, k);
    AllFine(s.default.body, t, b, pending, k);
    var r := LowerAll(s.default.body, b);
    FineJumpUnless(t, r, doneL, pending, k);
  }

  /** The label of the closing block is pending until that block is added. */
  lemma CloseFine(st: Ctx, a: Ctx, t: Ctx, c: Ctx, doneL: Label, pending: Pending, known: set<Label>, k: set<Label>)
    requires Fine(st, a, pending, known) && Fine(t, c, With(pending, doneL), k) && known <= k
    requires doneL.Fresh? && doneL.id == a.labelId + 1 &&
             t == a.(labelId := a.labelId + 1, breaks := a.breaks + [doneL])
    ensures var r := CloseSwitch(doneL, c); Fine(st, r, pending, known)
  {
    hide Sound;
    CloseSwitchGrows(st, a, a.(labelId := a.labelId + 1), t, c, doneL);
    var d := AddBlock(c, doneL);
    SoundAdd(c, doneL, pending);
    forall l | l in known
      ensures Reaches(d, pending, l)
    {
      AddedReaches(c, doneL, pending, Jump(l));
    }
    hide Reaches;
    hide Grows;
    hide Ok;
    hide Emit;
    var e := At(d, |c.blocks|);
    SoundSame(d, e, pending);
    KnownSame(d, e, pending, known);
    SoundPlain(e, Nop, pending);
    EmitKept(e, Nop);
    KnownKept(e, Emit(e, Nop), pending, known);
    SoundSame(Emit(e, Nop), CloseSwitch(doneL, c), pending);
    KnownSame(Emit(e, Nop), CloseSwitch(doneL, c), pending, known);
  }

  lemma PushSwitchFine(st: Ctx, a: Ctx, t: Ctx, pending: Pending, known: set<Label>, doneL: Label)
    requires Fine(st, a, pending, known) && Aims(a, known)
    requires t == a.(labelId := a.labelId + 1, breaks := a.breaks + [doneL])
    ensures Fine(t, t, With(pending, doneL), known + {doneL}) && Aims(t, known + {doneL})
  {
    hide Sound;
    var u := a.(labelId := a.labelId + 1);
    GrowsSelf(a);
    MoreGrows(a, a, u);
    PushOk(u, t);
    SoundSame(a, t, pending);
    SoundPending(t, pending, With(pending, doneL));
    forall l | l in known + {doneL}
      ensures Reaches(t, With(pending, doneL), l)
    {
      if l in known { ReachesSame(a, t, pending, l); }
    }
    FineStart(t, With(pending, doneL), known + {doneL});
  }

  /** A `switch` after its value has been computed, up to the first jump. */
  lemma SwitchEnter(st: Ctx, a: Ctx, t: Ctx, prefixes: seq<string>, pending: Pending, known: set<Label>, doneL: Label)
    requires Fine(st, a, pending, known) && Aims(a, known)
    requires t == a.(labelId := a.labelId + 1, breaks := a.breaks + [doneL])
    ensures var (s3, labels) := OpenBlocks(t, prefixes);
            var k := known + {doneL} + (set l | l in labels);
            var s4 := if |labels| > 0 then Emit(s3, Jump(labels[0])) else s3;
            Fine(t, s4, With(pending, doneL), k) && Aims(t, k) && |s4.blocks| == |t.blocks| + |prefixes|
  {
    hide Fine;
    hide Aims;
    hide Emit;
    hide OpenBlocks;
    hide With;
    PushSwitchFine(st, a, t, pending, known, doneL);
    var p := With(pending, doneL);
    FineOpen(t, t, prefixes, p, known + {doneL});
    var (s3, labels) := OpenBlocks(t, prefixes);
    var k := known + {doneL} + (set l | l in labels);
    FineParts(st, a, pending, known);
    if |labels| > 0 { FineJump(t, s3, labels[0], p, k); }
    FineParts(t, t, p, known + {doneL});
    AimsSame(t, t, known + {doneL}, k);
  }

  lemma {:induction false} SwitchFine(s: Stmt, st: Ctx, pending: Pending, known: set<Label>)
    requires s.SSwitch? && Fine(st, st, pending, known) && Aims(st, known)
    ensures var r := LowerStmt(s, st); Fine(st, r, pending, known)
    decreases s, 1
  {
    hide Fine;
    hide Emit;
    hide LowerExpr;
    hide Aims;
    hide Grows;
    hide Ok;
    hide OpenBlocks;
    hide LowerCases;
    hide LowerAll;
    hide CloseSwitch;
    hide JumpUnlessTerminated;
    FineExpr(st, st, s.e, pending, known);
    var (s1, v) := LowerExpr(s.e, st);
    FineParts(st, s1, pending, known);
    AimsSame(st, s1, known, known);
    var (s2, doneL) := NextLabel(s1, "sw_done_");
    var n := |s2.blocks|;
    var t := s2.(breaks := s2.breaks + [doneL]);
    var prefixes := CasePrefixes(|s.cases|) + if s.default.Otherwise? then ["sw_default_"] else [];
    var m := |prefixes|;
    SwitchEnter(st, s1, t, prefixes, pending, known, doneL);
    var (s3, labels) := OpenBlocks(t, prefixes);
    var k := known + {doneL} + (set l | l in labels);
    var p := With(pending, doneL);
    var defaultL := if s.default.Otherwise? then labels[2 * |s.cases|] else doneL;
    var s4 := if |labels| > 0 then Emit(s3, Jump(labels[0])) else s3;
    CasesFine(v, s, 0, n, labels, defaultL, doneL, t, s4, p, k, m);
    var s5 := LowerCases(v, s, 0, n, labels, defaultL, doneL, s4);
    var d := n + 2 * |s.cases|;
    var s6 := s5;
    if s.default.Otherwise? {
      FineAt(t, s5, d, p, k);
      DefaultFine(s, t, At(s5, d), doneL, p, k);
      s6 := JumpUnlessTerminated(LowerAll(s.default.body, At(s5, d)), doneL);
    }
    CloseFine(st, s1, t, s6, doneL, pending, known, k);
  }

  // ----- whole functions -----

  ghost predicate NamesBlock(f: Function, l: Label) {
    exists b :: 0 <= b < |f.blocks| && f.blocks[b].tag == l
  }

  ghost predicate JumpsInside(f: Function, i: Instr) {
    (i.Jump? ==> NamesBlock(f, i.target)) && (i.BranchIf? ==> NamesBlock(f, i.thenLabel) && NamesBlock(f, i.elseLabel))
  }

  /** What a well-formed graph is. */
  ghost predicate WellFormed(f: Function) {
    |f.blocks| > 0 && Distinct(f.blocks) &&
    AllFinished(f.blocks) &&
    (forall b, p :: 0 <= b < |f.blocks| && 0 <= p < |f.blocks[b].instrs| ==> JumpsInside(f, f.blocks[b].instrs[p]))
  }

  /** Parameters and declarations all have different IR names. */
  ghost predicate NamedApart(f: Function) {
    DeclaredOnce(f.blocks) &&
    (forall i, j :: 0 <= i < j < |f.params| ==> f.params[i] != f.params[j]) &&
    forall b, p, i :: DeclaresAt(f.blocks, b, p) && 0 <= i < |f.params| ==> f.blocks[b].instrs[p].name != f.params[i]
  }

  /** Every variable that the code reads or writes is a parameter, is declared in it, or is a name that was
      not in scope. */
  ghost predicate AllAtHome(f: Function) {
    forall b, p :: 0 <= b < |f.blocks| && 0 <= p < |f.blocks[b].instrs| ==>
                     AtHome(f.blocks, (set x | x in f.params), f.blocks[b].instrs[p])
  }

  lemma {:induction false} ParamsApart(params: seq<Decl>)
    ensures var (r, names) := DefineParams(params, START);
            r.blocks == START.blocks && r.cur == 0 && r.breaks == [] && r.loops == [] && r.varId == |params| &&
            r.labelId == 0 && (forall i :: 0 <= i < |names| ==> names[i] == Local(params[i].name, i + 1)) &&
            forall k :: 0 <= k < |r.scope| ==> r.scope[k].ir in names
  {
    if params != [] { ParamsApart(params[..|params| - 1]); }
  }

  lemma GraphOf(fn: FnDef, st: Ctx, pending: Pending)
    requires Fine(st, st, pending, {}) && pending.labels == {} && Aims(st, {})
    ensures var s2 := LowerStmt(SBlock(fn.body), st);
            var s3 := if Terminated(s2) then s2 else Emit(s2, if fn.isVoid then RetVoid else RetDefault);
            Ok(s3) && Sound(s3, pending) && |s3.blocks| > 0
  {
    hide Grows;
    hide LowerStmt;
    hide Linked;
    hide DeclaredOnce;
    hide DeclaredWithin;
    hide Emit;
    StmtFine(SBlock(fn.body), st, pending, {});
    var s2 := LowerStmt(SBlock(fn.body), st);
    var ret := if fn.isVoid then RetVoid else RetDefault;
    FineRet(st, s2, ret, pending, {});
  }

  lemma ClosedGraph(a: Ctx, pending: Pending, f: Function)
    requires Ok(a) && Sound(a, pending) && pending.labels == {} && f.blocks == a.blocks
    ensures (WellFormed(f) <==> AllFinished(f.blocks)) && DeclaredOnce(f.blocks)
    ensures forall b, p :: DeclaresAt(f.blocks, b, p) ==>
                             f.blocks[b].instrs[p].name.Local? && f.blocks[b].instrs[p].name.id > pending.above
    ensures pending.params == (set x | x in f.params) ==> AllAtHome(f)
  {
    forall b, p | 0 <= b < |f.blocks| && 0 <= p < |f.blocks[b].instrs|
      ensures JumpsInside(f, f.blocks[b].instrs[p])
    {
      assert TargetsExist(a, pending, a.blocks[b].instrs[p]);
    }
  }

  lemma StartSound(st: Ctx, params: set<Name>)
    requires st.blocks == [Block(Entry, [])] && st.cur == 0 && st.breaks == [] && st.loops == []
    requires forall k :: 0 <= k < |st.scope| ==> st.scope[k].ir in params
    ensures Fine(st, st, Pending({}, st.varId, params), {}) && Aims(st, {})
  {
    FineStart(st, Pending({}, st.varId, params), {});
  }

  /** For every program, well behaved or not: the graph is well-formed exactly if every `switch` without
      clauses comes where the block is already finished; names are apart and variables declared in any case. */
  lemma LoweringIsWellFormed(fn: FnDef)
    ensures WellFormed(LowerFunction(fn)) <==> CoveredAll(fn.body, false, false, false)
    ensures NamedApart(LowerFunction(fn)) && AllAtHome(LowerFunction(fn))
  {
    hide Fine;
    hide Aims;
    hide LowerStmt;
    hide Emit;
    hide Terminated;
    hide WellFormed;
    hide Ok;
    hide Sound;
    hide DeclaredOnce;
    hide AllFinished;
    hide CoveredAll;
    ParamsApart(fn.params);
    var (s1, params) := DefineParams(fn.params, START);
    var names := set x | x in params;
    var pending := Pending({}, |fn.params|, names);
    StartSound(s1, names);
    GraphOf(fn, s1, pending);
    var s2 := LowerStmt(SBlock(fn.body), s1);
    var s3 := if Terminated(s2) then s2 else Emit(s2, if fn.isVoid then RetVoid else RetDefault);
    ClosedGraph(s3, pending, LowerFunction(fn));
    FunctionFinished(fn, s1);
  }

  /** A `switch` without clauses moves on and leaves the block that computed its value as it is: that
      block is finished afterwards exactly when a `return`, `break` or `continue` had finished it. */
  lemma EmptySwitchMovesOn(e: Expr, st: Ctx)
    requires Ok(st)
    ensures var s1, r := LowerExpr(e, st).0, LowerStmt(SSwitch(e, [], NoDefault), st);
            s1.cur < |s1.blocks| && r.cur == |s1.blocks| < |r.blocks| && s1.cur != r.cur &&
            (HoldsTerminator(r.blocks[s1.cur]) <==> HoldsTerminator(s1.blocks[s1.cur]))
  {
    hide LowerExpr;
    hide LowerStmt;
    hide Grows;
    LowerExprGrows(e, st);
    EmptySwitchIs(e, st);
    var s1 := LowerExpr(e, st).0;
    var r := LowerStmt(SSwitch(e, [], NoDefault), st);
    assert r.blocks[s1.cur] == s1.blocks[s1.cur];
  }

  lemma EmptySwitchIs(e: Expr, st: Ctx)
    ensures var s1 := LowerExpr(e, st).0;
            var (s2, doneL) := NextLabel(s1, "sw_done_");
            LowerStmt(SSwitch(e, [], NoDefault), st) == CloseSwitch(doneL, s2.(breaks := s2.breaks + [doneL]))
  {
    hide LowerExpr;
    hide CloseSwitch;
  }

  /** The condition is needed: nothing leaves the block before a `switch` without clauses. */
  lemma EmptySwitchFallsOff()
    ensures var fn := FnDef([], true, [SSwitch(ELit(0), [], NoDefault)]); !WellFormed(LowerFunction(fn))
  {
    var s := SSwitch(ELit(0), [], NoDefault);
    LoweringIsWellFormed(FnDef([], true, [s]));
    assert !Covered(s, false, false, false);
  }
}
